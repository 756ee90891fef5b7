/**
 The tournament tree of Peterson locks as an interleaved transition system.

 2^L processes climb from a leaf lock to the root lock and release from the root
 down. A step of the system is one atomic section of one process, or an arbitrary
 change of table entries that the tree does not use. The number of levels L is a
 parameter throughout.
 */
module Tournament {
  import opened Peterson

  // ---------- index arithmetic ----------

  function Pow2(n: nat): (r: nat)
    ensures r > 0
  {
    if n == 0 then 1 else 2 * Pow2(n - 1)
  }

  /** x >> k */
  function Shr(x: nat, k: nat): nat {
    if k == 0 then x else Shr(x, k - 1) / 2
  }

  lemma {:induction false} ShrBound(x: nat, k: nat, a: nat)
    requires x < Pow2(a + k)
    ensures Shr(x, k) < Pow2(a)
  {
    if k > 0 {
      ShrBound(x, k - 1, a + 1);
    }
  }

  lemma {:induction false} Pow2Monotone(a: nat, b: nat)
    requires a <= b
    ensures Pow2(a) <= Pow2(b)
  {
    if a < b {
      Pow2Monotone(a, b - 1);
    }
  }

  // ---------- the tree ----------

  /** levels is L; ids holds the kernel lock ids of the nodes in breadth-first order. */
  datatype Tree = Tree(levels: nat, ids: seq<int>) {

    function Processes(): nat {
      Pow2(levels)
    }

    /** The role of process p at level l: bit L-1-l of p. */
    function RoleAt(p: nat, l: nat): Role
      requires l < levels
    {
      Shr(p, levels - 1 - l) % 2
    }

    /** The position within level l of the node that p uses there. */
    function GroupAt(p: nat, l: nat): nat
      requires l <= levels
    {
      Shr(p, levels - l)
    }

    /** The index of that node in the lock array. */
    function NodeAt(p: nat, l: nat): int
      requires l < levels
    {
      GroupAt(p, l) + Pow2(l) - 1
    }

    ghost predicate Valid(t: Table) {
      && |ids| == Pow2(levels) - 1
      && (forall i :: 0 <= i < |ids| ==> 0 <= ids[i] < |t| && t[ids[i]].active)
      && (forall i, j :: 0 <= i < j < |ids| ==> ids[i] != ids[j])
    }
  }

  /** In the array, the node below node i on the side of role r has index 2i + 1 + r. */
  lemma ChildIndex(c: Tree, p: nat, l: nat)
    requires l + 1 < c.levels
    ensures c.NodeAt(p, l + 1) == 2 * c.NodeAt(p, l) + 1 + c.RoleAt(p, l)
  {
  }

  /** Every index computed by acquire and release is in the array. */
  lemma NodeInRange(c: Tree, p: nat, l: nat)
    requires l < c.levels && p < c.Processes()
    ensures c.GroupAt(p, l) < Pow2(l)
    ensures 0 <= c.NodeAt(p, l) < Pow2(c.levels) - 1
  {
    ShrBound(p, c.levels - l, l);
    Pow2Monotone(l + 1, c.levels);
  }

  /** Two processes use the same array entry only at the same level and position. */
  lemma NodeInjective(c: Tree, p: nat, l: nat, q: nat, m: nat)
    requires l < c.levels && m < c.levels && p < c.Processes() && q < c.Processes()
    ensures c.NodeAt(p, l) == c.NodeAt(q, m) <==> l == m && c.GroupAt(p, l) == c.GroupAt(q, m)
  {
    NodeInRange(c, p, l);
    NodeInRange(c, q, m);
    if l < m {
      Pow2Monotone(l + 1, m);
    } else if m < l {
      Pow2Monotone(m + 1, l);
    }
  }

  // ---------- states and steps ----------

  /**
   Where a process is: outside, about to run the doorway at a level, in the wait loop
   there, in the critical section, about to release at a level, or returned -1.
   */
  datatype Pc = Idle | Entering(level: nat) | Waiting(level: nat) | Critical | Releasing(level: nat) | Failed

  datatype State = State(table: Table, pc: seq<Pc>)

  predicate InAcquire(pc: Pc) {
    pc.Entering? || pc.Waiting?
  }

  predicate InRelease(pc: Pc) {
    pc.Releasing?
  }

  function LockId(c: Tree, p: nat, l: nat): int
    requires l < c.levels
  {
    var i := c.NodeAt(p, l);
    if 0 <= i < |c.ids| then c.ids[i] else -1
  }

  /** The program counter after the lock of level l was obtained. */
  function AfterAcquire(l: nat): Pc {
    if l == 0 then Critical else Entering(l - 1)
  }

  function AfterRelease(c: Tree, l: nat): Pc {
    if l + 1 < c.levels then Releasing(l + 1) else Idle
  }

  /** The next atomic section of process p. A failed call ends the process's use of the tree. */
  function ProcessStep(c: Tree, s: State, p: nat): State
    requires p < |s.pc|
  {
    match s.pc[p]
    case Idle => s.(pc := s.pc[p := if c.levels == 0 then Critical else Entering(c.levels - 1)])
    case Entering(l) =>
      if l < c.levels && Accepted(s.table, LockId(c, p, l), c.RoleAt(p, l)) then
        var id := LockId(c, p, l);
        State(s.table[id := s.table[id].Doorway(c.RoleAt(p, l))], s.pc[p := Waiting(l)])
      else s.(pc := s.pc[p := Failed])
    case Waiting(l) =>
      if l < c.levels && 0 <= LockId(c, p, l) < |s.table| then
        match Test(s.table[LockId(c, p, l)], c.RoleAt(p, l))
        case Again => s
        case Acquired => s.(pc := s.pc[p := AfterAcquire(l)])
        case Rejected => s.(pc := s.pc[p := Failed])
      else s.(pc := s.pc[p := Failed])
    case Critical => s.(pc := s.pc[p := if c.levels == 0 then Idle else Releasing(0)])
    case Releasing(l) =>
      if l < c.levels && Accepted(s.table, LockId(c, p, l), c.RoleAt(p, l)) then
        var id := LockId(c, p, l);
        State(s.table[id := s.table[id].SetFlag(c.RoleAt(p, l), false)], s.pc[p := AfterRelease(c, l)])
      else s.(pc := s.pc[p := Failed])
    case Failed => s
  }

  /** Other users of the lock table may do anything to the entries outside the tree. */
  ghost predicate EnvironmentStep(c: Tree, s: State, s': State) {
    && s'.pc == s.pc
    && |s'.table| == |s.table|
    && forall i :: 0 <= i < |c.ids| && 0 <= c.ids[i] < |s.table| ==> s'.table[c.ids[i]] == s.table[c.ids[i]]
  }

  ghost predicate Next(c: Tree, s: State, s': State) {
    (exists p: nat :: p < |s.pc| && s' == ProcessStep(c, s, p)) || EnvironmentStep(c, s, s')
  }

  ghost predicate Init(c: Tree, s: State) {
    && c.Valid(s.table)
    && |s.pc| == c.Processes()
    && (forall p :: 0 <= p < |s.pc| ==> s.pc[p] == Idle)
    && (forall i :: 0 <= i < |c.ids| ==> s.table[c.ids[i]] == FRESH)
  }

  ghost predicate IsRun(c: Tree, run: seq<State>) {
    && |run| > 0
    && Init(c, run[0])
    && forall i, j :: 0 <= i && j == i + 1 < |run| ==> Next(c, run[i], run[j])
  }

  // ---------- the invariant ----------

  /** The process has passed the wait loop at level l and not yet released there. */
  predicate Holds(pc: Pc, l: nat) {
    match pc
    case Entering(k) => k < l
    case Waiting(k) => k < l
    case Critical => true
    case Releasing(k) => k <= l
    case _ => false
  }

  /** The process's flag at level l is up. */
  predicate Uses(pc: Pc, l: nat) {
    Holds(pc, l) || pc == Waiting(l)
  }

  function LockAt(c: Tree, s: State, p: nat, l: nat): Lock
    requires c.Valid(s.table) && p < c.Processes() && l < c.levels
  {
    NodeInRange(c, p, l);
    s.table[c.ids[c.NodeAt(p, l)]]
  }

  ghost predicate Shape(c: Tree, s: State) {
    && c.Valid(s.table)
    && |s.pc| == c.Processes()
    && forall p :: 0 <= p < |s.pc| ==>
      && !s.pc[p].Failed?
      && (s.pc[p].Entering? || s.pc[p].Waiting? || s.pc[p].Releasing? ==> s.pc[p].level < c.levels)
  }

  /** At most one process holds a node. */
  ghost predicate NodeMutex(c: Tree, s: State) {
    forall p, q, l |
      && 0 <= p < |s.pc| && 0 <= q < |s.pc| && 0 <= l < c.levels
      && Holds(s.pc[p], l) && Holds(s.pc[q], l) && c.GroupAt(p, l) == c.GroupAt(q, l)
      :: p == q
  }

  /** A process that uses a node has its flag up there. */
  ghost predicate FlagsUp(c: Tree, s: State)
    requires Shape(c, s)
  {
    forall p, l :: 0 <= p < |s.pc| && 0 <= l < c.levels && Uses(s.pc[p], l) ==>
      LockAt(c, s, p, l).Flag(c.RoleAt(p, l))
  }

  /** While one process holds a node and another waits there, the turn belongs to the holder. */
  ghost predicate TurnWithHolder(c: Tree, s: State)
    requires Shape(c, s)
  {
    forall p, q, l |
      && 0 <= p < |s.pc| && 0 <= q < |s.pc| && 0 <= l < c.levels && p != q
      && Holds(s.pc[p], l) && s.pc[q] == Waiting(l) && c.GroupAt(p, l) == c.GroupAt(q, l)
      :: LockAt(c, s, p, l).turn == c.RoleAt(p, l)
  }

  /** q uses the other side of the node that p uses at level l. */
  ghost predicate Rival(c: Tree, s: State, p: nat, l: nat, q: nat)
    requires l < c.levels
  {
    q < |s.pc| && Uses(s.pc[q], l) && c.GroupAt(q, l) == c.GroupAt(p, l) && c.RoleAt(q, l) == 1 - c.RoleAt(p, l)
  }

  /** A raised flag belongs to a process that uses the node in that role. */
  ghost predicate FlagsOwned(c: Tree, s: State)
    requires Shape(c, s)
  {
    forall p, l :: 0 <= p < |s.pc| && 0 <= l < c.levels && LockAt(c, s, p, l).Flag(1 - c.RoleAt(p, l)) ==>
      exists q :: Rival(c, s, p, l, q)
  }

  ghost predicate Inv(c: Tree, s: State) {
    Shape(c, s) && NodeMutex(c, s) && FlagsUp(c, s) && TurnWithHolder(c, s) && FlagsOwned(c, s)
  }

  /** The process takes part at level l: it has passed every lower level. */
  predicate Engaged(pc: Pc, l: nat) {
    Uses(pc, l) || pc == Entering(l)
  }

  /** Each role at each node has at most one user, because the user holds the child on that side. */
  lemma RoleExclusive(c: Tree, s: State, p: nat, q: nat, l: nat)
    requires Shape(c, s) && NodeMutex(c, s)
    requires p < |s.pc| && q < |s.pc| && l < c.levels
    requires Engaged(s.pc[p], l) && Engaged(s.pc[q], l)
    requires c.GroupAt(p, l) == c.GroupAt(q, l) && c.RoleAt(p, l) == c.RoleAt(q, l)
    ensures p == q
  {
    if l + 1 < c.levels {
      assert Holds(s.pc[p], l + 1) && Holds(s.pc[q], l + 1);
    }
  }

  // ---------- every step keeps the invariant ----------

  /** Changing the lock that p uses at level l changes no other node's lock. */
  lemma LockFrame(c: Tree, s: State, s': State, p: nat, l: nat, k: Lock)
    requires c.Valid(s.table) && p < c.Processes() && l < c.levels && k.active
    requires 0 <= LockId(c, p, l) < |s.table| && s'.table == s.table[LockId(c, p, l) := k]
    ensures c.Valid(s'.table)
    ensures forall q, m | 0 <= q < c.Processes() && 0 <= m < c.levels ::
      LockAt(c, s', q, m) == if l == m && c.GroupAt(p, l) == c.GroupAt(q, m) then k else LockAt(c, s, q, m)
  {
    NodeInRange(c, p, l);
    forall q, m | 0 <= q < c.Processes() && 0 <= m < c.levels
      ensures c.Valid(s'.table)
      ensures LockAt(c, s', q, m) == if l == m && c.GroupAt(p, l) == c.GroupAt(q, m) then k else LockAt(c, s, q, m)
    {
      NodeInRange(c, q, m);
      NodeInjective(c, p, l, q, m);
    }
  }

  /** In a well-formed state the calls of the tree are never refused. */
  lemma CallAccepted(c: Tree, s: State, p: nat, l: nat)
    requires Shape(c, s) && p < |s.pc| && l < c.levels
    ensures Accepted(s.table, LockId(c, p, l), c.RoleAt(p, l))
    ensures s.table[LockId(c, p, l)] == LockAt(c, s, p, l)
  {
    NodeInRange(c, p, l);
  }

  /** s' is s with the program counter of p changed, and the lock of p at level l set to k. */
  ghost predicate Updated(c: Tree, s: State, s': State, p: nat, l: nat, pc: Pc, k: Lock)
    requires Shape(c, s) && p < |s.pc| && l < c.levels
  {
    && Shape(c, s') && s'.pc == s.pc[p := pc]
    && forall q, m | 0 <= q < c.Processes() && 0 <= m < c.levels ::
      LockAt(c, s', q, m) == if m == l && c.GroupAt(p, l) == c.GroupAt(q, l) then k else LockAt(c, s, q, m)
  }

  /** Where the three steps on a lock lead, in terms of the nodes of the tree. */
  lemma StepUpdates(c: Tree, s: State, p: nat)
    requires Shape(c, s) && p < |s.pc| && (s.pc[p].Entering? || s.pc[p].Waiting? || s.pc[p].Releasing?)
    ensures
      var s', l := ProcessStep(c, s, p), s.pc[p].level;
      var k, r := LockAt(c, s, p, l), c.RoleAt(p, l);
      match s.pc[p]
      case Entering(_) => Updated(c, s, s', p, l, Waiting(l), k.Doorway(r))
      case Waiting(_) => if k.MustWait(r) then s' == s else Updated(c, s, s', p, l, AfterAcquire(l), k)
      case Releasing(_) => Updated(c, s, s', p, l, AfterRelease(c, l), k.SetFlag(r, false))
      case _ => true
  {
    var s', l := ProcessStep(c, s, p), s.pc[p].level;
    var k, r := LockAt(c, s, p, l), c.RoleAt(p, l);
    CallAccepted(c, s, p, l);
    match s.pc[p] {
      case Entering(_) => LockFrame(c, s, s', p, l, k.Doorway(r));
      case Waiting(_) => LockFrame(c, s, s', p, l, k);
      case Releasing(_) => LockFrame(c, s, s', p, l, k.SetFlag(r, false));
    }
  }

  lemma EnterKeepsTurn(c: Tree, s: State, s': State, p: nat, l: nat)
    requires Inv(c, s) && p < |s.pc| && l < c.levels && s.pc[p] == Entering(l)
    requires Updated(c, s, s', p, l, Waiting(l), LockAt(c, s, p, l).Doorway(c.RoleAt(p, l)))
    ensures TurnWithHolder(c, s')
  {
    forall a, b, m |
      && 0 <= a < |s.pc| && 0 <= b < |s.pc| && 0 <= m < c.levels && a != b
      && Holds(s'.pc[a], m) && s'.pc[b] == Waiting(m) && c.GroupAt(a, m) == c.GroupAt(b, m)
      ensures LockAt(c, s', a, m).turn == c.RoleAt(a, m)
    {
      assert a != p || m != l;
      assert Holds(s.pc[a], m) && (b == p || s.pc[b] == Waiting(m));
      if m == l && c.GroupAt(a, l) == c.GroupAt(p, l) {
        if c.RoleAt(a, l) == c.RoleAt(p, l) {
          RoleExclusive(c, s, a, p, l);
        } else if b != p {
          if c.RoleAt(b, l) == c.RoleAt(p, l) {
            RoleExclusive(c, s, b, p, l);
          } else {
            RoleExclusive(c, s, a, b, l);
          }
        }
      }
    }
  }

  /** Flags stay owned when no user leaves, or when the only user that leaves lowers its flag. */
  lemma OwnershipKept(c: Tree, s: State, s': State, p: nat, l: nat, pc: Pc, k: Lock)
    requires Inv(c, s) && p < |s.pc| && l < c.levels && Updated(c, s, s', p, l, pc, k)
    requires forall m :: 0 <= m < c.levels && m != l ==> (Uses(s.pc[p], m) ==> Uses(pc, m))
    requires k.Flag(1 - c.RoleAt(p, l)) ==> LockAt(c, s, p, l).Flag(1 - c.RoleAt(p, l))
    requires k.Flag(c.RoleAt(p, l)) ==> Uses(pc, l)
    ensures FlagsOwned(c, s')
  {
    hide NodeMutex, FlagsUp, TurnWithHolder, LockAt;
    forall a, m | 0 <= a < |s.pc| && 0 <= m < c.levels && LockAt(c, s', a, m).Flag(1 - c.RoleAt(a, m))
      ensures exists q :: Rival(c, s', a, m, q)
    {
      if m == l && c.GroupAt(p, l) == c.GroupAt(a, l) && c.RoleAt(p, l) == 1 - c.RoleAt(a, l) {
        assert Rival(c, s', a, m, p);
      } else {
        FlagWasUp(c, s, s', p, l, pc, k, a, m);
        var q :| Rival(c, s, a, m, q);
        assert Rival(c, s', a, m, q);
      }
    }
  }

  /** A flag that is up after the step and is not p's was up before. */
  lemma FlagWasUp(c: Tree, s: State, s': State, p: nat, l: nat, pc: Pc, k: Lock, a: nat, m: nat)
    requires Shape(c, s) && p < |s.pc| && l < c.levels && Updated(c, s, s', p, l, pc, k) && a < |s.pc| && m < c.levels
    requires k.Flag(1 - c.RoleAt(p, l)) ==> LockAt(c, s, p, l).Flag(1 - c.RoleAt(p, l))
    requires LockAt(c, s', a, m).Flag(1 - c.RoleAt(a, m))
    requires !(m == l && c.GroupAt(p, l) == c.GroupAt(a, l) && c.RoleAt(p, l) == 1 - c.RoleAt(a, l))
    ensures LockAt(c, s, a, m).Flag(1 - c.RoleAt(a, m))
  {
    if m == l && c.GroupAt(p, l) == c.GroupAt(a, l) {
      assert LockAt(c, s, a, m) == LockAt(c, s, p, l);
    }
  }

  lemma EnterKeeps(c: Tree, s: State, p: nat)
    requires Inv(c, s) && p < |s.pc| && s.pc[p].Entering?
    ensures Inv(c, ProcessStep(c, s, p))
  {
    var l := s.pc[p].level;
    var s' := ProcessStep(c, s, p);
    StepUpdates(c, s, p);
    EnterKeepsTurn(c, s, s', p, l);
    OwnershipKept(c, s, s', p, l, Waiting(l), LockAt(c, s, p, l).Doorway(c.RoleAt(p, l)));
    assert NodeMutex(c, s') by {
      assert forall a, m | 0 <= a < |s.pc| && 0 <= m < c.levels :: Holds(s'.pc[a], m) <==> Holds(s.pc[a], m);
    }
  }

  /** Who passes the wait loop finds no holder, and takes the turn from every other waiter. */
  lemma PassingExcludes(c: Tree, s: State, p: nat, q: nat, l: nat)
    requires Inv(c, s) && p < |s.pc| && q < |s.pc| && l < c.levels && s.pc[p] == Waiting(l)
    requires !LockAt(c, s, p, l).MustWait(c.RoleAt(p, l))
    requires q != p && Uses(s.pc[q], l) && c.GroupAt(q, l) == c.GroupAt(p, l)
    ensures !Holds(s.pc[q], l) && LockAt(c, s, p, l).turn == c.RoleAt(p, l)
  {
    if c.RoleAt(q, l) == c.RoleAt(p, l) {
      RoleExclusive(c, s, q, p, l);
    }
    assert LockAt(c, s, q, l) == LockAt(c, s, p, l);
  }

  lemma PassKeeps(c: Tree, s: State, s': State, p: nat, l: nat)
    requires Inv(c, s) && p < |s.pc| && l < c.levels && s.pc[p] == Waiting(l)
    requires !LockAt(c, s, p, l).MustWait(c.RoleAt(p, l))
    requires Updated(c, s, s', p, l, AfterAcquire(l), LockAt(c, s, p, l))
    ensures NodeMutex(c, s') && TurnWithHolder(c, s')
  {
    assert forall m | 0 <= m < c.levels :: Holds(s'.pc[p], m) <==> Holds(s.pc[p], m) || m == l;
    forall q | 0 <= q < |s.pc| && q != p && Uses(s.pc[q], l) && c.GroupAt(q, l) == c.GroupAt(p, l)
      ensures !Holds(s.pc[q], l) && LockAt(c, s, p, l).turn == c.RoleAt(p, l)
    {
      PassingExcludes(c, s, p, q, l);
    }
    assert forall a, m | 0 <= a < |s.pc| && 0 <= m < c.levels ::
      LockAt(c, s', a, m).turn == LockAt(c, s, a, m).turn by {
      forall a | 0 <= a < |s.pc| && c.GroupAt(p, l) == c.GroupAt(a, l)
        ensures LockAt(c, s, a, l) == LockAt(c, s, p, l)
      {}
    }
  }

  lemma TestKeeps(c: Tree, s: State, p: nat)
    requires Inv(c, s) && p < |s.pc| && s.pc[p].Waiting?
    ensures Inv(c, ProcessStep(c, s, p))
  {
    var l := s.pc[p].level;
    var s' := ProcessStep(c, s, p);
    StepUpdates(c, s, p);
    if s' != s {
      PassKeeps(c, s, s', p, l);
      OwnershipKept(c, s, s', p, l, AfterAcquire(l), LockAt(c, s, p, l));
      FlagsUpKept(c, s, s', p, l, AfterAcquire(l), LockAt(c, s, p, l));
    }
  }

  /** Flags stay up when p becomes user of no further node and lowers only a flag it no longer uses. */
  lemma FlagsUpKept(c: Tree, s: State, s': State, p: nat, l: nat, pc: Pc, k: Lock)
    requires Inv(c, s) && p < |s.pc| && l < c.levels && Updated(c, s, s', p, l, pc, k)
    requires Uses(s.pc[p], l) && forall m :: 0 <= m < c.levels && Uses(pc, m) ==> Uses(s.pc[p], m)
    requires k.Flag(1 - c.RoleAt(p, l)) == LockAt(c, s, p, l).Flag(1 - c.RoleAt(p, l))
    requires Uses(pc, l) ==> k.Flag(c.RoleAt(p, l))
    ensures FlagsUp(c, s')
  {
    forall a, m | 0 <= a < |s.pc| && 0 <= m < c.levels && Uses(s'.pc[a], m)
      ensures LockAt(c, s', a, m).Flag(c.RoleAt(a, m))
    {
      assert Uses(s.pc[a], m);
      if m == l && c.GroupAt(p, l) == c.GroupAt(a, l) {
        assert LockAt(c, s, a, l) == LockAt(c, s, p, l);
        if c.RoleAt(a, m) == c.RoleAt(p, m) {
          RoleExclusive(c, s, a, p, l);
        }
      }
    }
  }

  lemma ReleaseKeeps(c: Tree, s: State, p: nat)
    requires Inv(c, s) && p < |s.pc| && s.pc[p].Releasing?
    ensures Inv(c, ProcessStep(c, s, p))
  {
    var l := s.pc[p].level;
    var s' := ProcessStep(c, s, p);
    var k := LockAt(c, s, p, l).SetFlag(c.RoleAt(p, l), false);
    StepUpdates(c, s, p);
    OwnershipKept(c, s, s', p, l, AfterRelease(c, l), k);
    FlagsUpKept(c, s, s', p, l, AfterRelease(c, l), k);
    assert forall a, m | 0 <= a < |s.pc| && 0 <= m < c.levels :: Holds(s'.pc[a], m) ==> Holds(s.pc[a], m);
    assert forall a, m | 0 <= a < |s.pc| && 0 <= m < c.levels ::
      LockAt(c, s', a, m).turn == LockAt(c, s, a, m).turn by {
      forall a | 0 <= a < |s.pc| && c.GroupAt(p, l) == c.GroupAt(a, l)
        ensures LockAt(c, s, a, l) == LockAt(c, s, p, l)
      {}
    }
  }

  lemma OtherStepKeeps(c: Tree, s: State, p: nat)
    requires Inv(c, s) && p < |s.pc| && (s.pc[p].Idle? || s.pc[p].Critical?)
    ensures Inv(c, ProcessStep(c, s, p))
  {
    var s' := ProcessStep(c, s, p);
    assert forall a, m | 0 <= a < |s.pc| && 0 <= m < c.levels :: LockAt(c, s', a, m) == LockAt(c, s, a, m);
    assert forall a, m | 0 <= a < |s.pc| && 0 <= m < c.levels :: Uses(s'.pc[a], m) <==> Uses(s.pc[a], m);
    forall a, m | 0 <= a < |s.pc| && 0 <= m < c.levels && LockAt(c, s', a, m).Flag(1 - c.RoleAt(a, m))
      ensures exists q :: Rival(c, s', a, m, q)
    {
      var q :| Rival(c, s, a, m, q);
      assert Rival(c, s', a, m, q);
    }
  }

  lemma EnvironmentKeeps(c: Tree, s: State, s': State)
    requires Inv(c, s) && EnvironmentStep(c, s, s')
    ensures Inv(c, s')
  {
    forall a, m | 0 <= a < |s.pc| && 0 <= m < c.levels
      ensures LockAt(c, s', a, m) == LockAt(c, s, a, m)
    {
      NodeInRange(c, a, m);
    }
    forall a, m | 0 <= a < |s.pc| && 0 <= m < c.levels && LockAt(c, s', a, m).Flag(1 - c.RoleAt(a, m))
      ensures exists q :: Rival(c, s', a, m, q)
    {
      var q :| Rival(c, s, a, m, q);
      assert Rival(c, s', a, m, q);
    }
  }

  lemma StepKeeps(c: Tree, s: State, s': State)
    requires Inv(c, s) && Next(c, s, s')
    ensures Inv(c, s')
  {
    if EnvironmentStep(c, s, s') {
      EnvironmentKeeps(c, s, s');
    } else {
      var p: nat :| p < |s.pc| && s' == ProcessStep(c, s, p);
      match s.pc[p] {
        case Idle => OtherStepKeeps(c, s, p);
        case Critical => OtherStepKeeps(c, s, p);
        case Entering(_) => EnterKeeps(c, s, p);
        case Waiting(_) => TestKeeps(c, s, p);
        case Releasing(_) => ReleaseKeeps(c, s, p);
      }
    }
  }

  lemma InitEstablishes(c: Tree, s: State)
    requires Init(c, s)
    ensures Inv(c, s)
  {
    forall a, m | 0 <= a < |s.pc| && 0 <= m < c.levels
      ensures LockAt(c, s, a, m) == FRESH
    {
      NodeInRange(c, a, m);
    }
  }

  lemma {:induction false} RunKeeps(c: Tree, run: seq<State>, i: nat)
    requires IsRun(c, run) && i < |run|
    ensures Inv(c, run[i])
  {
    if i == 0 {
      InitEstablishes(c, run[0]);
    } else {
      RunKeeps(c, run, i - 1);
      StepKeeps(c, run[i - 1], run[i]);
    }
  }

  /**
   In every run, a process that uses a node holds the child node on its side, which is the one at
   array index 2i + 1 + r, and nobody else holds that.
   */
  lemma UserHoldsChild(c: Tree, run: seq<State>, i: nat, p: nat, q: nat, l: nat)
    requires IsRun(c, run) && i < |run| && p < c.Processes() && q < c.Processes() && l + 1 < c.levels
    ensures |run[i].pc| == c.Processes()
    ensures Uses(run[i].pc[p], l) ==> Holds(run[i].pc[p], l + 1)
    ensures c.NodeAt(p, l + 1) == 2 * c.NodeAt(p, l) + 1 + c.RoleAt(p, l)
    ensures Uses(run[i].pc[p], l) && q != p && c.NodeAt(q, l + 1) == 2 * c.NodeAt(p, l) + 1 + c.RoleAt(p, l) ==>
      !Holds(run[i].pc[q], l + 1)
  {
    RunKeeps(c, run, i);
    ChildIndex(c, p, l);
    NodeInjective(c, p, l + 1, q, l + 1);
  }

  // ---------- mutual exclusion ----------

  /** In the critical section, or on the way out with the root lock not yet released. */
  predicate PastRoot(pc: Pc) {
    pc.Critical? || pc == Releasing(0)
  }

  /**
   In every state of every run at most one process is past the root lock, and no call
   of the library has returned an error.
   */
  lemma MutualExclusion(c: Tree, run: seq<State>, i: nat, p: nat, q: nat)
    requires IsRun(c, run) && i < |run| && p < c.Processes() && q < c.Processes()
    ensures |run[i].pc| == c.Processes()
    ensures PastRoot(run[i].pc[p]) && PastRoot(run[i].pc[q]) ==> p == q
    ensures !run[i].pc[p].Failed?
  {
    RunKeeps(c, run, i);
    var s := run[i];
    if c.levels > 0 {
      ShrBound(p, c.levels, 0);
      ShrBound(q, c.levels, 0);
      assert Holds(s.pc[p], 0) && Holds(s.pc[q], 0) ==> p == q;
    }
  }
}
