/**
 The log does not fill up for good: from every reachable state the active operations can end, the
 last of them commits, and then the log is empty and admits operations again.
 */
module LogProgress {

  import opened Params
  import opened LogAdmission

  /** Without operations and without a commit under way, nothing waits in the header. */
  ghost predicate Settled(s: State) {
    s.core.outstanding == 0 && !s.core.committing ==> s.core.lh == []
  }

  lemma StepKeepsSettled(size: int, s: State, step: Step, s': State)
    requires SpaceInv(s) && GroupInv(s) && Settled(s) && Next(size, s, step, s')
    ensures Settled(s')
  {
    TotalsBounds(s.ops);
    assert step.Reopen? && s.core.lh != [] ==> WrittenIn(s.ops, |s.commits|, s.core.lh[0]);
  }

  ghost predicate Good(s: State) {
    SpaceInv(s) && GroupInv(s) && Settled(s)
  }

  lemma StepKeepsGood(size: int, s: State, step: Step, s': State)
    requires Good(s) && Next(size, s, step, s')
    ensures Good(s')
  {
    hide Next, SpaceInv, GroupInv, Settled;
    StepKeepsSettled(size, s, step, s');
    StepKeepsSpace(size, s, step, s');
    StepKeepsGroups(size, s, step, s');
  }

  lemma {:induction false} RunGood(size: int, run: seq<State>, steps: seq<Step>, n: nat)
    requires IsRun(size, run, steps) && n <= |steps|
    ensures Good(run[n])
  {
    if n > 0 {
      RunGood(size, run, steps, n - 1);
      assert Next(size, run[n - 1], steps[n - 1], run[n]);
      StepKeepsGood(size, run[n - 1], steps[n - 1], run[n]);
    }
  }

  /** The steps lead from s to s'. */
  ghost predicate Leads(size: int, s: State, steps: seq<Step>, s': State)
    decreases |steps|
  {
    if steps == [] then s' == s else exists m :: Next(size, s, steps[0], m) && Leads(size, m, steps[1..], s')
  }

  lemma First(size: int, s: State, step: Step, m: State, steps: seq<Step>, s': State)
    requires Next(size, s, step, m) && Leads(size, m, steps, s')
    ensures Leads(size, s, [step] + steps, s')
  {
    hide Next;
    assert ([step] + steps)[1..] == steps;
  }

  lemma {:induction false} SomeActive(ops: seq<Op>) returns (i: nat)
    requires ActiveCount(ops) > 0
    ensures i < |ops| && ops[i].active
  {
    var n := |ops| - 1;
    if ops[n].active {
      i := n;
    } else {
      i := SomeActive(ops[..n]);
    }
  }

  /** Operations still to end, a commit to be written, a log to be opened again. */
  lemma {:induction false} Drains(size: int, s: State) returns (steps: seq<Step>, s': State)
    requires Good(s)
    ensures Leads(size, s, steps, s') && Good(s') && s'.core == Core([], 0, false)
    ensures forall k :: 0 <= k < |steps| ==> steps[k].End? || steps[k].Commit? || steps[k].Reopen?
    decreases s.core.outstanding, s.core.committing, !s.flushed
  {
    hide GroupInv, Leads;
    TotalsBounds(s.ops);
    var step: Step, m: State;
    if s.core.committing {
      Flushes(s);
      if s.flushed {
        step, m := Reopen, s.(core := s.core.(committing := false), flushed := false);
      } else {
        step, m := Commit, s.(core := s.core.(lh := []), commits := s.commits + [Blocks(s.core.lh)], flushed := true);
      }
    } else if s.core.outstanding > 0 {
      var op := SomeActive(s.ops);
      step := End(op);
      m := s.(core := s.core.(outstanding := s.core.outstanding - 1, committing := s.core.outstanding == 1),
              ops := s.ops[op := s.ops[op].(active := false)]);
    } else {
      NoSteps(size, s);
      return [], s;
    }
    assert Next(size, s, step, m);
    hide Next, SpaceInv, Settled;
    StepKeepsGood(size, s, step, m);
    steps, s' := Drains(size, m);
    First(size, s, step, m, steps, s');
    steps := [step] + steps;
  }

  lemma Flushes(s: State)
    requires Good(s)
    ensures s.flushed ==> s.core.committing
  {
  }

  lemma NoSteps(size: int, s: State)
    ensures Leads(size, s, [], s)
  {
  }

  /**
   From every state of every run there is a continuation, without any new operation, in which all
   operations have ended, what they wrote is in their commits, and the log is empty.
   */
  lemma LogComesFree(size: int, run: seq<State>, steps: seq<Step>, n: nat) returns (more: seq<Step>, s': State)
    requires IsRun(size, run, steps) && n <= |steps|
    ensures Leads(size, run[n], more, s') && s'.core == Core([], 0, false) && s'.core.Admits()
    ensures forall k :: 0 <= k < |more| ==> more[k].End? || more[k].Commit? || more[k].Reopen?
    ensures forall i :: 0 <= i < |s'.ops| ==> !s'.ops[i].active && s'.ops[i].epoch <= |s'.commits|
    ensures forall i, b :: 0 <= i < |s'.ops| && b in s'.ops[i].wrote ==>
              s'.ops[i].epoch < |s'.commits| && b in s'.commits[s'.ops[i].epoch]
  {
    hide Leads;
    RunGood(size, run, steps, n);
    more, s' := Drains(size, run[n]);
    TotalsBounds(s'.ops);
    forall i, b | 0 <= i < |s'.ops| && b in s'.ops[i].wrote
      ensures s'.ops[i].epoch < |s'.commits| && b in s'.commits[s'.ops[i].epoch]
    {
      assert WrittenIn(s'.ops, s'.ops[i].epoch, b);
      assert s'.ops[i].epoch < |s'.commits| ==> CommitExact(s', s'.ops[i].epoch);
    }
  }
}
