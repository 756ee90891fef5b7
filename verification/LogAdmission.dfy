/**
 Admission to the log and group commit: how begin_op reserves space, how log_write fills
 it, and how the last end_op commits. File system operations interleave in any order.
 */
module LogAdmission {

  import opened Params

  /** The fields of the in-memory log that the log's spinlock protects. */
  datatype Core = Core(lh: seq<int>, outstanding: int, committing: bool) {

    /** begin_op goes ahead instead of sleeping. */
    predicate Admits() {
      !committing && |lh| + (outstanding + 1) * MAXOPBLOCKS <= LOGSIZE
    }

    predicate WritePanics(size: int) {
      |lh| >= LOGSIZE || |lh| >= size - 1 || outstanding < 1
    }

    /** The header after log_write: a block that is already listed is absorbed. */
    function Logged(b: int): Core {
      if b in lh then this else this.(lh := lh + [b])
    }
  }

  /** How many blocks the header can list before log_write panics on a log area of `size` blocks. */
  function Capacity(size: int): nat {
    if size > LOGSIZE then LOGSIZE else if size >= 1 then size - 1 else 0
  }

  class GroupLog {
    const size: int
    var lh: seq<int>
    var outstanding: int
    var committing: bool

    function Value(): Core
      reads this
    {
      Core(lh, outstanding, committing)
    }

    constructor (size: int)
      ensures this.size == size && Value() == Core([], 0, false)
    {
      this.size, lh, outstanding, committing := size, [], 0, false;
    }

    /** One pass through the loop of begin_op; false means the caller sleeps. */
    method BeginOp() returns (admitted: bool)
      modifies this
      ensures admitted <==> old(Value()).Admits()
      ensures admitted <==> !old(committing) && |old(lh)| + (old(outstanding) + 1) * MAXOPBLOCKS <= LOGSIZE
      ensures Value() == if admitted then old(Value()).(outstanding := old(outstanding) + 1) else old(Value())
    {
      if committing {
        return false;
      } else if |lh| + (outstanding + 1) * MAXOPBLOCKS > LOGSIZE {
        return false;
      }
      outstanding := outstanding + 1;
      return true;
    }

    /** The locked part of end_op. */
    method EndOp() returns (panics: bool, commits: bool)
      modifies this
      ensures panics <==> old(committing)
      ensures !panics ==>
        && (commits <==> old(outstanding) == 1)
        && Value() == old(Value()).(outstanding := old(outstanding) - 1, committing := commits)
    {
      outstanding := outstanding - 1;
      if committing {
        return true, false;
      }
      commits := outstanding == 0;
      if commits {
        committing := true;
      }
      return false, commits;
    }

    /** Records a block number; the search loop absorbs repeated writes. */
    method LogWrite(b: int) returns (panics: bool)
      modifies this
      ensures panics <==> old(Value()).WritePanics(size)
      ensures panics <==> |old(lh)| >= LOGSIZE || |old(lh)| >= size - 1 || old(outstanding) < 1
      ensures Value() == if panics then old(Value()) else old(Value()).Logged(b)
      ensures !panics ==> lh == if b in old(lh) then old(lh) else old(lh) + [b]
    {
      if |lh| >= LOGSIZE || |lh| >= size - 1 {
        return true;
      }
      if outstanding < 1 {
        return true;
      }
      var i := 0;
      while i < |lh|
        invariant 0 <= i <= |lh| && b !in lh[..i]
      {
        if lh[i] == b {
          break;
        }
        i := i + 1;
      }
      if i == |lh| {
        lh := lh + [b];
      } else {
        lh := lh[i := b];
      }
      return false;
    }
  }

  // ---------- interleaved operations ----------

  /** An operation: the commit it belongs to, how many blocks it appended, and all it wrote. */
  datatype Op = Op(active: bool, epoch: nat, appended: nat, wrote: set<int>)

  /** `commits` lists what each group commit carried; `flushed` says that the running one has done its writes. */
  datatype State = State(core: Core, ops: seq<Op>, commits: seq<set<int>>, flushed: bool)

  function Blocks(lh: seq<int>): set<int> {
    set b | b in lh
  }

  const START := State(Core([], 0, false), [], [], false)

  datatype Step = Begin | Write(op: nat, block: int) | End(op: nat) | Commit | Reopen

  /** An operation appends at most MAXOPBLOCKS new blocks. */
  predicate WithinBudget(s: State, op: nat, b: int)
    requires op < |s.ops|
  {
    b in s.core.lh || s.ops[op].appended < MAXOPBLOCKS
  }

  ghost predicate Next(size: int, s: State, step: Step, s': State) {
    match step
    case Begin =>
      && s.core.Admits()
      && s' == s.(core := s.core.(outstanding := s.core.outstanding + 1), ops := s.ops + [Op(true, |s.commits|, 0, {})])
    case Write(op, b) =>
      && op < |s.ops| && s.ops[op].active && WithinBudget(s, op, b) && !s.core.WritePanics(size)
      && s' == s.(core := s.core.Logged(b), ops := s.ops[op := AfterWrite(s.ops[op], b, b in s.core.lh)])
    case End(op) =>
      && op < |s.ops| && s.ops[op].active && !s.core.committing
      && s' == s.(core := s.core.(outstanding := s.core.outstanding - 1, committing := s.core.outstanding == 1),
                  ops := s.ops[op := s.ops[op].(active := false)])
    case Commit =>
      // the commit itself runs unlocked, while `committing` keeps everybody out
      && s.core.committing && !s.flushed
      && s' == s.(core := s.core.(lh := []), commits := s.commits + [Blocks(s.core.lh)], flushed := true)
    case Reopen =>
      && s.core.committing && s.flushed
      && s' == s.(core := s.core.(committing := false), flushed := false)
  }

  function AfterWrite(o: Op, b: int, absorbed: bool): Op {
    o.(appended := if absorbed then o.appended else o.appended + 1, wrote := o.wrote + {b})
  }

  ghost predicate IsRun(size: int, run: seq<State>, steps: seq<Step>) {
    && |run| == |steps| + 1 && run[0] == START
    && forall i, j :: 0 <= i < |steps| && j == i + 1 ==> Next(size, run[i], steps[i], run[j])
  }

  ghost predicate Reachable(size: int, s: State) {
    exists run, steps :: IsRun(size, run, steps) && run[|steps|] == s
  }

  // ---------- the space invariant ----------

  /** The part of its reservation that an operation has not used. */
  function Unused(o: Op): int {
    if o.active then MAXOPBLOCKS - o.appended else 0
  }

  function TotalUnused(ops: seq<Op>): int {
    if ops == [] then 0 else TotalUnused(ops[..|ops| - 1]) + Unused(ops[|ops| - 1])
  }

  function ActiveCount(ops: seq<Op>): nat {
    if ops == [] then 0 else ActiveCount(ops[..|ops| - 1]) + (if ops[|ops| - 1].active then 1 else 0)
  }

  lemma {:induction false} TotalsUpdate(ops: seq<Op>, i: nat, o: Op)
    requires i < |ops|
    ensures TotalUnused(ops[i := o]) == TotalUnused(ops) - Unused(ops[i]) + Unused(o)
    ensures ActiveCount(ops[i := o]) + Count(ops[i].active) == ActiveCount(ops) + Count(o.active)
  {
    var n := |ops| - 1;
    if i == n {
      assert ops[i := o][..n] == ops[..n];
    } else {
      assert ops[i := o][..n] == ops[..n][i := o];
      TotalsUpdate(ops[..n], i, o);
    }
  }

  ghost predicate Frugal(ops: seq<Op>) {
    forall i :: 0 <= i < |ops| ==> ops[i].appended <= MAXOPBLOCKS
  }

  lemma {:induction false} TotalsBounds(ops: seq<Op>)
    requires Frugal(ops)
    ensures 0 <= TotalUnused(ops) <= MAXOPBLOCKS * ActiveCount(ops)
    ensures forall i :: 0 <= i < |ops| && ops[i].active ==> Unused(ops[i]) <= TotalUnused(ops) && ActiveCount(ops) > 0
  {
    if ops != [] {
      TotalsBounds(ops[..|ops| - 1]);
      forall i | 0 <= i < |ops| && ops[i].active
        ensures Unused(ops[i]) <= TotalUnused(ops) && ActiveCount(ops) > 0
      {
        if i < |ops| - 1 {
          assert ops[i] == ops[..|ops| - 1][i];
        }
      }
    }
  }

  lemma TotalsAppend(ops: seq<Op>, o: Op)
    ensures TotalUnused(ops + [o]) == TotalUnused(ops) + Unused(o)
    ensures ActiveCount(ops + [o]) == ActiveCount(ops) + (if o.active then 1 else 0)
  {
    assert (ops + [o])[..|ops|] == ops;
  }

  /** What is logged and what active operations may still log fits into the log. */
  ghost predicate SpaceInv(s: State) {
    && Frugal(s.ops)
    && s.core.outstanding == ActiveCount(s.ops)
    && |s.core.lh| + TotalUnused(s.ops) <= LOGSIZE
    && (s.core.committing ==> s.core.outstanding == 0)
  }

  lemma StepKeepsSpace(size: int, s: State, step: Step, s': State)
    requires SpaceInv(s) && Next(size, s, step, s')
    ensures SpaceInv(s')
  {
    TotalsBounds(s.ops);
    match step {
      case Begin => TotalsAppend(s.ops, Op(true, |s.commits|, 0, {}));
      case Write(op, b) => TotalsUpdate(s.ops, op, s'.ops[op]);
      case End(op) =>
        TotalsUpdate(s.ops, op, s'.ops[op]);
      case Commit =>
      case Reopen =>
    }
  }

  /** The header, and what each commit carried, fit the log area. */
  ghost predicate CapacityInv(size: int, s: State) {
    |s.core.lh| <= Capacity(size) && forall e :: 0 <= e < |s.commits| ==> |s.commits[e]| <= Capacity(size)
  }

  lemma {:induction false} BlocksCard(lh: seq<int>)
    ensures |Blocks(lh)| <= |lh|
  {
    if lh != [] {
      var n := |lh| - 1;
      BlocksCard(lh[..n]);
      assert Blocks(lh) == Blocks(lh[..n]) + {lh[n]};
    }
  }

  lemma StepKeepsCapacity(size: int, s: State, step: Step, s': State)
    requires CapacityInv(size, s) && SpaceInv(s) && Next(size, s, step, s')
    ensures CapacityInv(size, s')
  {
    TotalsBounds(s.ops);
    BlocksCard(s.core.lh);
  }

  // ---------- the grouping invariant ----------

  ghost predicate WrittenIn(ops: seq<Op>, epoch: nat, b: int) {
    exists i :: 0 <= i < |ops| && ops[i].epoch == epoch && b in ops[i].wrote
  }

  /** The commit number e carried exactly what the operations of epoch e wrote. */
  ghost predicate CommitExact(s: State, e: nat)
    requires e < |s.commits|
  {
    forall b :: b in s.commits[e] <==> WrittenIn(s.ops, e, b)
  }

  ghost predicate GroupInv(s: State) {
    && (forall i :: 0 <= i < |s.ops| ==> s.ops[i].epoch <= |s.commits|)
    && (forall i :: 0 <= i < |s.ops| && s.ops[i].active ==> s.ops[i].epoch == |s.commits|)
    && (s.flushed ==> s.core.committing && forall i :: 0 <= i < |s.ops| ==> s.ops[i].epoch < |s.commits|)
    && (forall b :: b in s.core.lh <==> WrittenIn(s.ops, |s.commits|, b))
    && (forall e :: 0 <= e < |s.commits| ==> CommitExact(s, e))
  }

  lemma BeginKeepsGroups(size: int, s: State, s': State)
    requires GroupInv(s) && Next(size, s, Begin, s')
    ensures GroupInv(s')
  {
    forall e: nat, b ensures WrittenIn(s'.ops, e, b) <==> WrittenIn(s.ops, e, b) {
      if WrittenIn(s'.ops, e, b) {
        var i :| 0 <= i < |s'.ops| && s'.ops[i].epoch == e && b in s'.ops[i].wrote;
        assert s.ops[i] == s'.ops[i];
      }
      if WrittenIn(s.ops, e, b) {
        var i :| 0 <= i < |s.ops| && s.ops[i].epoch == e && b in s.ops[i].wrote;
        assert s'.ops[i] == s.ops[i];
      }
    }
    forall e | 0 <= e < |s'.commits| ensures CommitExact(s', e) {
      assert CommitExact(s, e);
    }
  }

  lemma WriteKeepsGroups(size: int, s: State, op: nat, b: int, s': State)
    requires GroupInv(s) && SpaceInv(s) && Next(size, s, Write(op, b), s')
    ensures GroupInv(s')
  {
    TotalsBounds(s.ops);
    forall e: nat, c ensures WrittenIn(s'.ops, e, c) <==> WrittenIn(s.ops, e, c) || (e == |s.commits| && c == b) {
      if WrittenIn(s'.ops, e, c) {
        var i :| 0 <= i < |s'.ops| && s'.ops[i].epoch == e && c in s'.ops[i].wrote;
        assert i != op || c != b ==> c in s.ops[i].wrote && s.ops[i].epoch == e;
      }
      if WrittenIn(s.ops, e, c) {
        var i :| 0 <= i < |s.ops| && s.ops[i].epoch == e && c in s.ops[i].wrote;
        assert c in s'.ops[i].wrote && s'.ops[i].epoch == e;
      }
      assert b in s'.ops[op].wrote && s'.ops[op].epoch == |s.commits|;
    }
    forall e | 0 <= e < |s'.commits| ensures CommitExact(s', e) {
      assert CommitExact(s, e);
    }
  }

  lemma EndKeepsGroups(size: int, s: State, op: nat, s': State)
    requires GroupInv(s) && SpaceInv(s) && Next(size, s, End(op), s')
    ensures GroupInv(s')
  {
    forall e: nat, c ensures WrittenIn(s'.ops, e, c) <==> WrittenIn(s.ops, e, c) {
      if WrittenIn(s'.ops, e, c) {
        var i :| 0 <= i < |s'.ops| && s'.ops[i].epoch == e && c in s'.ops[i].wrote;
        assert s.ops[i].wrote == s'.ops[i].wrote && s.ops[i].epoch == e;
      }
      if WrittenIn(s.ops, e, c) {
        var i :| 0 <= i < |s.ops| && s.ops[i].epoch == e && c in s.ops[i].wrote;
        assert s'.ops[i].wrote == s.ops[i].wrote && s'.ops[i].epoch == e;
      }
    }
    forall e | 0 <= e < |s'.commits| ensures CommitExact(s', e) {
      assert CommitExact(s, e);
    }
  }

  lemma CommitKeepsGroups(size: int, s: State, s': State)
    requires GroupInv(s) && SpaceInv(s) && Next(size, s, Commit, s')
    ensures GroupInv(s')
  {
    TotalsBounds(s.ops);
    forall e | 0 <= e < |s'.commits| ensures CommitExact(s', e) {
      if e < |s.commits| {
        assert CommitExact(s, e);
      }
    }
  }

  lemma StepKeepsGroups(size: int, s: State, step: Step, s': State)
    requires GroupInv(s) && SpaceInv(s) && Next(size, s, step, s')
    ensures GroupInv(s')
  {
    match step {
      case Begin => BeginKeepsGroups(size, s, s');
      case Write(op, b) => WriteKeepsGroups(size, s, op, b, s');
      case End(op) => EndKeepsGroups(size, s, op, s');
      case Commit => CommitKeepsGroups(size, s, s');
      case Reopen =>
        forall e | 0 <= e < |s'.commits| ensures CommitExact(s', e) {
          assert CommitExact(s, e);
        }
    }
  }

  lemma {:induction false} RunKeeps(size: int, run: seq<State>, steps: seq<Step>, n: nat)
    requires IsRun(size, run, steps) && n <= |steps|
    ensures SpaceInv(run[n]) && GroupInv(run[n]) && CapacityInv(size, run[n])
  {
    if n > 0 {
      RunKeeps(size, run, steps, n - 1);
      assert Next(size, run[n - 1], steps[n - 1], run[n]);
      StepKeepsSpace(size, run[n - 1], steps[n - 1], run[n]);
      StepKeepsCapacity(size, run[n - 1], steps[n - 1], run[n]);
      StepKeepsGroups(size, run[n - 1], steps[n - 1], run[n]);
    }
  }

  // ---------- what the invariants give ----------

  /**
   In every state of every run: nobody is active during a commit, so the panic of end_op
   is out of reach. A commit carries exactly the blocks of its own operations, which have
   all ended. What an operation wrote is in one commit, or still in the header.
   */
  lemma GroupCommit(size: int, run: seq<State>, steps: seq<Step>, n: nat, op: nat)
    requires IsRun(size, run, steps) && n <= |steps| && op < |run[n].ops|
    ensures
      var s := run[n];
      var o := s.ops[op];
      && (s.core.committing ==> s.core.outstanding == 0 && !o.active)
      && o.epoch <= |s.commits|
      && (o.epoch < |s.commits| ==> !o.active && o.wrote <= s.commits[o.epoch] && CommitExact(s, o.epoch))
      && (o.epoch == |s.commits| ==> o.wrote <= Blocks(s.core.lh))
  {
    RunKeeps(size, run, steps, n);
    var s := run[n];
    TotalsBounds(s.ops);
    var o := s.ops[op];
    forall b | b in o.wrote
      ensures if o.epoch < |s.commits| then b in s.commits[o.epoch] else b in Blocks(s.core.lh)
    {
      assert WrittenIn(s.ops, o.epoch, b);
      assert o.epoch < |s.commits| ==> CommitExact(s, o.epoch);
    }
  }

  /**
   For every log size: a log_write of an active operation panics in a reachable state exactly
   when the header lists as many blocks as it can. If that is LOGSIZE blocks, every active
   operation has appended its whole budget.
   */
  lemma PanicMeansFull(size: int, s: State, op: nat)
    requires Reachable(size, s) && op < |s.ops| && s.ops[op].active
    ensures s.core.WritePanics(size) <==> |s.core.lh| == Capacity(size)
    ensures |s.core.lh| == LOGSIZE ==>
      forall i :: 0 <= i < |s.ops| && s.ops[i].active ==> s.ops[i].appended == MAXOPBLOCKS
  {
    var run, steps :| IsRun(size, run, steps) && run[|steps|] == s;
    RunKeeps(size, run, steps, |steps|);
    TotalsBounds(s.ops);
  }

  /** The steps that start three operations and append k different blocks, ten per operation. */
  function FillSteps(k: nat): (steps: seq<Step>)
    requires k <= LOGSIZE
    ensures |steps| == 3 + k
  {
    seq(3 + k, i requires 0 <= i < 3 + k => if i < 3 then Begin else Write((i - 3) / MAXOPBLOCKS, i - 3))
  }

  function Upto(k: nat): (r: seq<int>)
    ensures |r| == k && forall i :: 0 <= i < k ==> r[i] == i
  {
    seq(k, i => i)
  }

  /** How many of the first k appends were made by an operation, and which blocks they were. */
  function Share(k: nat, op: nat): Op {
    var lo := MAXOPBLOCKS * op;
    var appended := if k < lo then 0 else if k > lo + MAXOPBLOCKS then MAXOPBLOCKS else k - lo;
    Op(true, 0, appended, set b | b in Upto(k) && lo <= b < lo + MAXOPBLOCKS)
  }

  function FillState(i: nat): State {
    if i < 3 then State(Core([], i, false), seq(i, _ => Share(0, 0)), [], false)
    else State(Core(Upto(i - 3), 3, false), [Share(i - 3, 0), Share(i - 3, 1), Share(i - 3, 2)], [], false)
  }

  function FillRun(k: nat): (run: seq<State>)
    requires k <= LOGSIZE
    ensures |run| == 4 + k && forall i :: 0 <= i < 4 + k ==> run[i] == FillState(i)
  {
    seq(4 + k, i requires 0 <= i => FillState(i))
  }

  lemma BeginFills(size: int, i: nat)
    requires i < 3
    ensures Next(size, FillState(i), Begin, FillState(i + 1))
  {
    assert Share(0, 0) == Share(0, 1) == Share(0, 2) == Op(true, 0, 0, {});
    var s, s' := FillState(i), FillState(i + 1);
    assert s'.ops == s.ops + [Op(true, 0, 0, {})];
    assert s'.core.lh == [];
  }

  lemma WriteFills(size: int, k: nat)
    requires k < LOGSIZE && k < size - 1
    ensures Next(size, FillState(k + 3), Write(k / MAXOPBLOCKS, k), FillState(k + 4))
  {
    var s, s', op := FillState(k + 3), FillState(k + 4), k / MAXOPBLOCKS;
    assert k !in s.core.lh;
    assert s'.core == s.core.Logged(k);
    forall i | 0 <= i < 3
      ensures s'.ops[i] == if i == op then AfterWrite(s.ops[op], k, false) else s.ops[i]
    {
      assert s.ops[i] == Share(k, i) && s'.ops[i] == Share(k + 1, i);
      assert Upto(k + 1) == Upto(k) + [k];
      assert s'.ops[i].wrote == if i == op then s.ops[i].wrote + {k} else s.ops[i].wrote;
    }
    assert s'.ops == s.ops[op := AfterWrite(s.ops[op], k, false)];
  }

  /** Three operations can fill the log up to any level that the two bounds of log_write allow. */
  lemma FillReachable(size: int, k: nat)
    requires k <= Capacity(size)
    ensures Reachable(size, FillState(k + 3))
  {
    var run, steps := FillRun(k), FillSteps(k);
    forall i, j | 0 <= i < |steps| && j == i + 1 ensures Next(size, run[i], steps[i], run[j]) {
      if i < 3 {
        BeginFills(size, i);
      } else {
        WriteFills(size, i - 3);
      }
    }
    assert IsRun(size, run, steps) && run[|steps|] == FillState(k + 3);
  }

  /** No operation that stays within its budget can make an appending log_write panic. */
  ghost predicate AppendSafe(size: int) {
    forall s, op: nat | Reachable(size, s) && op < |s.ops| && s.ops[op].active && s.ops[op].appended < MAXOPBLOCKS ::
      !s.core.WritePanics(size)
  }

  /**
   Reserving MAXOPBLOCKS per operation keeps appending writes from panicking exactly when
   the log area holds a header and LOGSIZE blocks. The image builder makes it one block
   smaller, and then the thirtieth block of three full operations panics.
   */
  lemma AppendSafeIffRoom(size: int)
    ensures AppendSafe(size) <==> size > LOGSIZE
  {
    if size > LOGSIZE {
      forall s, op: nat | Reachable(size, s) && op < |s.ops| && s.ops[op].active && s.ops[op].appended < MAXOPBLOCKS
        ensures !s.core.WritePanics(size)
      {
        PanicMeansFull(size, s, op);
      }
    } else {
      var k := Capacity(size);
      FillReachable(size, k);
      var s, op := FillState(k + 3), k / MAXOPBLOCKS;
      assert s.ops[op].active && s.ops[op].appended < MAXOPBLOCKS && s.core.WritePanics(size);
    }
  }

  /** An operation within its budget rewrites a block that is already listed, and log_write panics. */
  ghost predicate AbsorptionPanics(size: int, s: State, op: nat, b: int) {
    && Reachable(size, s) && op < |s.ops| && s.ops[op].active && WithinBudget(s, op, b)
    && b in s.core.lh && s.core.WritePanics(size)
  }

  /**
   Rewriting a listed block, which needs no room, can panic on every log that can list a
   block at all: log_write tests for a full header before it looks for the block.
   */
  lemma AbsorptionCanPanic(size: int)
    ensures (exists s, op: nat, b :: AbsorptionPanics(size, s, op, b)) <==> size >= 2
  {
    if size >= 2 {
      var k := Capacity(size);
      FillReachable(size, k);
      var s := FillState(k + 3);
      assert s.core.lh[0] == 0;
      assert AbsorptionPanics(size, s, 0, 0);
    }
    forall s, op: nat, b | AbsorptionPanics(size, s, op, b) ensures size >= 2 {
      PanicMeansFull(size, s, op);
    }
  }
}
