/**
 The process table under fork, exit and wait. What happens under wait_lock is one step, and so
 is each change under a process's own lock. Other sleeps, wakeups, scheduling and kill only move a
 process between the live states, and may do so at any time. Channels below NPROC are addresses of
 processes; only wait sleeps on those, each process on its own.

 `exits` and `reaps` record what exit left and what wait returned; `born` orders the
 processes by the time allocproc took their slots.
 */
module ProcessTree {

  import opened Params

  const INIT := 0  // initproc: the slot that the first allocproc takes
  const NONE := -1

  datatype ProcState = Unused | Used | Sleeping | Runnable | Running | Zombie

  /** chan is the slot of the process whose address is slept on. */
  datatype Proc = Proc(state: ProcState, pid: nat, parent: int, chan: int, xstate: int)

  const FREED := Proc(Unused, 0, NONE, NONE, 0)

  predicate Live(p: Proc) {
    p.state.Sleeping? || p.state.Runnable? || p.state.Running?
  }

  // ---------- the table operations as functions ----------

  function Woke(p: Proc, chan: int): Proc {
    if p.state.Sleeping? && p.chan == chan then p.(state := Runnable) else p
  }

  /** wakeup(chan) called by process self. */
  function Woken(procs: seq<Proc>, chan: int, self: int): (r: seq<Proc>)
    ensures |r| == |procs|
    ensures forall i :: 0 <= i < |r| ==> r[i] == if i == self then procs[i] else Woke(procs[i], chan)
  {
    seq(|procs|, i requires 0 <= i < |procs| => if i == self then procs[i] else Woke(procs[i], chan))
  }

  /** reparent(p): p's children go to init, which is woken if there are any. */
  function Reparented(procs: seq<Proc>, p: int): (r: seq<Proc>)
    ensures |r| == |procs|
  {
    var moved := seq(|procs|, i requires 0 <= i < |procs| =>
      if procs[i].parent == p then procs[i].(parent := INIT) else procs[i]);
    if exists i :: 0 <= i < |procs| && procs[i].parent == p then Woken(moved, INIT, p) else moved
  }

  /** exit(status) by p, from taking wait_lock to releasing it. */
  function Exited(procs: seq<Proc>, p: nat, status: int): (r: seq<Proc>)
    requires p < |procs|
    ensures |r| == |procs|
  {
    var q := Reparented(procs, p);
    Woken(q, q[p].parent, p)[p := q[p].(xstate := status, state := Zombie)]
  }

  /** The child that wait's scan reaps: p's first zombie in table order. */
  function FirstZombie(procs: seq<Proc>, p: int, from: nat): (r: int)
    requires from <= |procs|
    ensures r == NONE <==> forall i :: from <= i < |procs| ==> !(procs[i].parent == p && procs[i].state.Zombie?)
    ensures r != NONE ==> from <= r < |procs| && procs[r].parent == p && procs[r].state.Zombie?
    ensures forall i :: from <= i < r ==> !(procs[i].parent == p && procs[i].state.Zombie?)
    decreases |procs| - from
  {
    if from == |procs| then NONE
    else if procs[from].parent == p && procs[from].state.Zombie? then from
    else FirstZombie(procs, p, from + 1)
  }

  predicate HasChild(procs: seq<Proc>, p: int) {
    exists i :: 0 <= i < |procs| && procs[i].parent == p
  }

  // ---------- steps ----------

  datatype Reap = Reap(pid: nat, status: int)

  datatype State = State(procs: seq<Proc>, nextpid: nat, forking: seq<int>, born: seq<nat>, clock: nat, exits: map<nat,
                         int>, reaps: seq<Reap>)

  predicate Shape(s: State) {
    |s.procs| == NPROC && |s.forking| == NPROC && |s.born| == NPROC
  }

  datatype Step =
    | ForkAlloc(p: nat, np: nat)   // allocproc found slot np
    | ForkFail(p: nat)             // a copy failed: freeproc
    | ForkLink(p: nat)             // np->parent = p
    | ForkStart(p: nat)            // np->state = RUNNABLE
    | Exit(p: nat, status: int)
    | Wait(p: nat)                 // a scan that finds a zombie
    | WaitSleep(p: nat)            // a scan that finds none, and sleep
    | Sleep(p: nat, chan: int)     // on another channel
    | Ready(p: nat)                // yield, or kill or a wakeup on another channel
    | Resume(p: nat)               // the scheduler's choice

  /** The child p is making, while it is in fork. */
  predicate Forking(s: State, p: nat)
    requires Shape(s) && p < NPROC
  {
    0 <= s.forking[p] < NPROC
  }

  predicate Enabled(s: State, step: Step)
    requires Shape(s)
  {
    && step.p < NPROC
    && var me := s.procs[step.p];
    match step
    case ForkAlloc(p, np) => me.state.Running? && !Forking(s, p) && np < NPROC && s.procs[np].state.Unused?
    case ForkFail(p) => me.state.Running? && Forking(s, p) && s.procs[s.forking[p]].parent == NONE
    case ForkLink(p) => me.state.Running? && Forking(s, p) && s.procs[s.forking[p]].parent == NONE
    case ForkStart(p) => me.state.Running? && Forking(s, p) && s.procs[s.forking[p]].parent != NONE
    case Exit(p, _) => me.state.Running? && !Forking(s, p) && p != INIT
    case Wait(p) => me.state.Running? && !Forking(s, p) && FirstZombie(s.procs, p, 0) != NONE
    case WaitSleep(p) =>
      me.state.Running? && !Forking(s, p) && HasChild(s.procs, p) && FirstZombie(s.procs, p, 0) == NONE
    case Sleep(p, chan) => me.state.Running? && !(0 <= chan < NPROC)
    case Ready(p) => me.state.Running? || me.state.Sleeping?
    case Resume(p) => me.state.Runnable?
  }

  function After(s: State, step: Step): State
    requires Shape(s) && Enabled(s, step)
  {
    match step
    case ForkAlloc(p, np) =>
      s.(procs := s.procs[np := s.procs[np].(state := Used, pid := s.nextpid)], nextpid := s.nextpid + 1,
         forking := s.forking[p := np], born := s.born[np := s.clock], clock := s.clock + 1)
    case ForkFail(p) => s.(procs := s.procs[s.forking[p] := FREED], forking := s.forking[p := NONE])
    case ForkLink(p) => s.(procs := s.procs[s.forking[p] := s.procs[s.forking[p]].(parent := p)])
    case ForkStart(p) =>
      var c := s.forking[p];
      s.(procs := s.procs[c := s.procs[c].(state := Runnable)], forking := s.forking[p := NONE])
    case Exit(p, status) => s.(procs := Exited(s.procs, p, status), exits := s.exits[s.procs[p].pid := status])
    case Wait(p) =>
      var z := FirstZombie(s.procs, p, 0);
      s.(procs := s.procs[z := FREED], reaps := s.reaps + [Reap(s.procs[z].pid, s.procs[z].xstate)])
    case WaitSleep(p) => s.(procs := s.procs[p := s.procs[p].(state := Sleeping, chan := p)])
    case Sleep(p, chan) => s.(procs := s.procs[p := s.procs[p].(state := Sleeping, chan := chan)])
    case Ready(p) => s.(procs := s.procs[p := s.procs[p].(state := Runnable)])
    case Resume(p) => s.(procs := s.procs[p := s.procs[p].(state := Running, chan := NONE)])
  }

  predicate Next(s: State, step: Step, s': State) {
    Shape(s) && Enabled(s, step) && s' == After(s, step)
  }

  /** userinit: one process, without a parent. */
  predicate Init(s: State) {
    && Shape(s) && s.procs[INIT] == Proc(Runnable, 1, NONE, NONE, 0) && s.nextpid == 2 && s.clock == 1
    && (forall i :: 1 <= i < NPROC ==> s.procs[i] == FREED)
    && (forall i :: 0 <= i < NPROC ==> s.forking[i] == NONE && s.born[i] == 0)
    && s.exits == map[] && s.reaps == []
  }

  // ---------- the invariant ----------

  /** Where a process's parent points. */
  ghost predicate ParentOk(s: State, i: nat)
    requires Shape(s) && i < NPROC
  {
    var p := s.procs[i];
    && (p.parent != NONE ==>
          0 <= p.parent < NPROC && Live(s.procs[p.parent]) && s.born[p.parent] < s.born[i] && !p.state.Unused?)
    && (i != INIT && (Live(p) || p.state.Zombie?) ==> p.parent != NONE)
    && (p.state.Unused? ==> p == FREED)
    && s.born[i] < s.clock
  }

  ghost predicate ForkOk(s: State, i: nat)
    requires Shape(s) && i < NPROC
  {
    Forking(s, i) ==>
      var np := s.forking[i];
      && Live(s.procs[i]) && s.procs[np].state.Used? && s.born[i] < s.born[np]
      && (s.procs[np].parent == NONE || s.procs[np].parent == i)
  }

  ghost predicate Tree(s: State)
    requires Shape(s)
  {
    && Live(s.procs[INIT]) && s.procs[INIT].parent == NONE && s.born[INIT] == 0
    && (forall i :: 0 <= i < NPROC ==> ParentOk(s, i) && ForkOk(s, i))
    && (forall i, k :: 0 <= i < k < NPROC && Forking(s, i) && Forking(s, k) ==> s.forking[i] != s.forking[k])
  }

  /** A process's pid is its own; a zombie's status is what it exited with. */
  ghost predicate PidOk(s: State, i: nat)
    requires Shape(s) && i < NPROC
  {
    var p := s.procs[i];
    && (!p.state.Unused? ==> 0 < p.pid < s.nextpid)
    && (p.state.Zombie? ==> p.pid in s.exits && s.exits[p.pid] == p.xstate)
    && (Live(p) || p.state.Used? ==> p.pid !in s.exits)
  }

  ghost predicate Pids(s: State)
    requires Shape(s)
  {
    && (forall i :: 0 <= i < NPROC ==> PidOk(s, i))
    && (forall i, k :: 0 <= i < k < NPROC && !s.procs[i].state.Unused? && !s.procs[k].state.Unused? ==>
          s.procs[i].pid != s.procs[k].pid)
    && (forall pid :: pid in s.exits ==> pid < s.nextpid) && s.nextpid > 0
  }

  /** What wait returned, it returned once, and no process has that pid any more. */
  ghost predicate Reaped(s: State)
    requires Shape(s)
  {
    && (forall r :: 0 <= r < |s.reaps| ==> s.reaps[r].pid in s.exits && s.exits[s.reaps[r].pid] == s.reaps[r].status)
    && (forall r, i :: 0 <= r < |s.reaps| && 0 <= i < NPROC && !s.procs[i].state.Unused? ==>
          s.procs[i].pid != s.reaps[r].pid)
    && (forall r, q :: 0 <= r < q < |s.reaps| ==> s.reaps[r].pid != s.reaps[q].pid)
  }

  ghost predicate Inv(s: State)
    ensures Inv(s) ==> Shape(s)
  {
    Shape(s) && Tree(s) && Pids(s) && Reaped(s)
  }

  // ---------- every step keeps it ----------

  lemma StepShape(s: State, step: Step)
    requires Shape(s) && Enabled(s, step)
    ensures Shape(After(s, step))
  {
  }

  /** What exit does to each slot. */
  lemma ExitedAt(procs: seq<Proc>, p: nat, status: int, i: nat)
    requires p < |procs| && i < |procs| && procs[p].parent != p
    ensures
      var q := Exited(procs, p, status)[i];
      && q.pid == procs[i].pid
      && q.parent == (if procs[i].parent == p then INIT else procs[i].parent)
      && (i == p ==> q.state == Zombie && q.xstate == status)
      && (i != p ==> q.xstate == procs[i].xstate)
      && (i != p ==> q.state == procs[i].state || (procs[i].state.Sleeping? && q.state.Runnable?))
      && (i != p && procs[i] == FREED && p != NONE ==> q == FREED)
  {
  }

  /**
   Exit wakes exactly those who sleep on p's parent, and those who sleep on init if p had children;
   it changes no channel and nothing else about the sleep of anyone.
   */
  lemma ExitWakes(procs: seq<Proc>, p: nat, status: int, i: nat)
    requires p < |procs| && i < |procs| && i != p && procs[p].parent != p
    ensures
      var q := Exited(procs, p, status)[i];
      var woken := procs[i].state == Sleeping
        && (procs[i].chan == procs[p].parent || (procs[i].chan == INIT && HasChild(procs, p)));
      q.chan == procs[i].chan && q.state == if woken then Runnable else procs[i].state
  {
  }

  /** Exit hands the children over before the parent turns into a zombie. */
  lemma ExitKeepsTree(s: State, step: Step)
    requires Shape(s) && Tree(s) && step.Exit? && Enabled(s, step) && Shape(After(s, step))
    ensures Tree(After(s, step))
  {
    hide Exited;
    var s', p := After(s, step), step.p;
    assert ParentOk(s, p);
    forall i | 0 <= i < NPROC
      ensures
        var q := s'.procs[i];
        && q.parent == (if s.procs[i].parent == p then INIT else s.procs[i].parent)
        && (i != p ==> (Live(q) <==> Live(s.procs[i])) && (q.state.Used? <==> s.procs[i].state.Used?))
        && (i != p ==> (q.state.Zombie? <==> s.procs[i].state.Zombie?))
        && (q.state.Unused? ==> q == FREED)
        && (s.procs[i].state.Unused? <==> q.state.Unused?)
        && (i == p ==> q.state.Zombie?)
    {
      assert ParentOk(s, i);
      ExitedAt(s.procs, p, step.status, i);
    }
    forall i | 0 <= i < NPROC ensures ParentOk(s', i) && ForkOk(s', i) {
      assert ParentOk(s, i) && ForkOk(s, i);
    }
  }

  /** Any other step changes one slot of the table. */
  function Slot(s: State, step: Step): (i: nat)
    requires Shape(s) && Enabled(s, step) && !step.Exit?
    ensures i < NPROC
  {
    match step
    case ForkAlloc(_, np) => np
    case Wait(p) => FirstZombie(s.procs, p, 0)
    case WaitSleep(p) => p
    case Sleep(p, _) => p
    case Ready(p) => p
    case Resume(p) => p
    case ForkFail(p) => s.forking[p]
    case ForkLink(p) => s.forking[p]
    case ForkStart(p) => s.forking[p]
  }

  lemma StepKeepsParent(s: State, step: Step, i: nat)
    requires Shape(s) && Tree(s) && Enabled(s, step) && !step.Exit? && Shape(After(s, step)) && i < NPROC
    ensures ParentOk(After(s, step), i)
  {
    hide Exited;
    var x := Slot(s, step);
    assert ParentOk(s, x) && ForkOk(s, x) && ParentOk(s, step.p) && ForkOk(s, step.p) && ParentOk(s, i);
  }

  lemma StepKeepsTree(s: State, step: Step)
    requires Shape(s) && Tree(s) && Enabled(s, step) && Shape(After(s, step))
    ensures Tree(After(s, step))
  {
    hide Exited;
    if step.Exit? {
      ExitKeepsTree(s, step);
    } else {
      var s', x := After(s, step), Slot(s, step);
      forall i | 0 <= i < NPROC ensures ParentOk(s', i) {
        StepKeepsParent(s, step, i);
      }
      assert ParentOk(s, x) && ForkOk(s, x) && ParentOk(s, step.p) && ForkOk(s, step.p);
      forall i | 0 <= i < NPROC ensures ForkOk(s', i) {
        assert ForkOk(s, i) && ParentOk(s, i);
      }
      assert x == INIT ==> step.WaitSleep? || step.Sleep? || step.Ready? || step.Resume?;
      forall i, k | 0 <= i < k < NPROC && Forking(s', i) && Forking(s', k) ensures s'.forking[i] != s'.forking[k] {
        assert ForkOk(s, i) && ForkOk(s, k);
      }
    }
  }

  lemma StepKeepsPids(s: State, step: Step)
    requires Inv(s) && Enabled(s, step) && Shape(After(s, step))
    ensures Pids(After(s, step))
  {
    if step.Exit? {
      ExitKeepsPids(s, step);
    } else {
      OthersKeepPids(s, step);
    }
  }

  /** Any other step gives a slot the next pid, frees it or keeps its pid. */
  lemma PidAfter(s: State, step: Step, i: nat)
    requires Inv(s) && Enabled(s, step) && !step.Exit? && Shape(After(s, step)) && i < NPROC
    ensures PidOk(After(s, step), i)
    ensures
      var s' := After(s, step);
      && s'.nextpid >= s.nextpid && s'.exits == s.exits
      && (!s'.procs[i].state.Unused? ==>
            if step.ForkAlloc? && i == step.np then s'.procs[i].pid == s.nextpid
            else !s.procs[i].state.Unused? && s'.procs[i].pid == s.procs[i].pid)
  {
    hide Exited, Reaped;
    assert PidOk(s, i) && ForkOk(s, step.p) && ParentOk(s, i);
  }

  lemma OthersKeepPids(s: State, step: Step)
    requires Inv(s) && Enabled(s, step) && !step.Exit? && Shape(After(s, step))
    ensures Pids(After(s, step))
  {
    hide After, Enabled, Reaped, Tree;
    var s' := After(s, step);
    forall i | 0 <= i < NPROC ensures PidOk(s', i) {
      PidAfter(s, step, i);
    }
    forall i, k | 0 <= i < k < NPROC && !s'.procs[i].state.Unused? && !s'.procs[k].state.Unused?
      ensures s'.procs[i].pid != s'.procs[k].pid
    {
      PidAfter(s, step, i);
      PidAfter(s, step, k);
      assert PidOk(s, i) && PidOk(s, k);
    }
    PidAfter(s, step, INIT);
  }

  lemma ExitKeepsPids(s: State, step: Step)
    requires Inv(s) && step.Exit? && Enabled(s, step) && Shape(After(s, step))
    ensures Pids(After(s, step))
  {
    hide Exited, Reaped;
    var s' := After(s, step);
    forall i | 0 <= i < NPROC
      ensures PidOk(s', i) && s'.procs[i].pid == s.procs[i].pid
      ensures (s'.procs[i].state.Unused? <==> s.procs[i].state.Unused?)
    {
      assert PidOk(s, i) && PidOk(s, step.p) && ParentOk(s, step.p);
      ExitedAt(s.procs, step.p, step.status, i);
    }
  }

  lemma StepKeepsReaped(s: State, step: Step)
    requires Inv(s) && Enabled(s, step) && Shape(After(s, step))
    ensures Reaped(After(s, step))
  {
    hide Exited, Tree;
    var s' := After(s, step);
    if step.Exit? {
      assert PidOk(s, step.p);
      forall i | 0 <= i < NPROC
        ensures s'.procs[i].pid == s.procs[i].pid && (s'.procs[i].state.Unused? <==> s.procs[i].state.Unused?)
      {
        NotOwnParent(s, step.p);
        ExitedAt(s.procs, step.p, step.status, i);
      }
    } else {
      if step.Wait? {
        assert PidOk(s, FirstZombie(s.procs, step.p, 0));
      } else {
        assert forall r :: 0 <= r < |s.reaps| ==> s.reaps[r].pid in s.exits && s.reaps[r].pid != s.nextpid;
        StillUsed(s, step);
      }
    }
  }

  lemma StillUsed(s: State, step: Step)
    requires Shape(s) && Tree(s) && Enabled(s, step) && !step.Exit? && !step.Wait?
    ensures
      var s', i := After(s, step), Slot(s, step);
      !s'.procs[i].state.Unused? ==>
        || (step.ForkAlloc? && s'.procs[i].pid == s.nextpid)
        || (!s.procs[i].state.Unused? && s'.procs[i].pid == s.procs[i].pid)
  {
    assert ForkOk(s, step.p);
  }

  lemma NotOwnParent(s: State, i: nat)
    requires Shape(s) && Tree(s) && i < NPROC
    ensures s.procs[i].parent != i
  {
    assert ParentOk(s, i);
  }

  lemma StepKeeps(s: State, step: Step, s': State)
    requires Inv(s) && Next(s, step, s')
    ensures Inv(s')
  {
    hide Tree, Pids, Reaped, After, Enabled;
    StepShape(s, step);
    StepKeepsTree(s, step);
    StepKeepsPids(s, step);
    StepKeepsReaped(s, step);
  }

  // ---------- runs ----------

  ghost predicate IsRun(run: seq<State>, steps: seq<Step>) {
    && |run| == |steps| + 1 && Init(run[0])
    && forall i, j :: 0 <= i && j == i + 1 < |run| ==> Next(run[i], steps[i], run[j])
  }

  lemma {:induction false} RunKeeps(run: seq<State>, steps: seq<Step>, n: nat)
    requires IsRun(run, steps) && n < |run|
    ensures Inv(run[n])
  {
    if n > 0 {
      RunKeeps(run, steps, n - 1);
      assert Next(run[n - 1], steps[n - 1], run[n]);
      StepKeeps(run[n - 1], steps[n - 1], run[n]);
    }
  }

  /** Process i and its forebears, as long as there is a parent. */
  ghost function Ancestry(s: State, i: nat): (path: seq<nat>)
    requires Shape(s) && Tree(s) && i < NPROC
    ensures |path| > 0 && path[0] == i
    decreases s.born[i]
  {
    assert ParentOk(s, i);
    if s.procs[i].parent == NONE then [i] else [i] + Ancestry(s, s.procs[i].parent)
  }

  /** Every chain of parents ends, at init, and visits no process twice. */
  lemma {:induction false} ChainReachesInit(s: State, i: nat)
    requires Shape(s) && Tree(s) && i < NPROC && (Live(s.procs[i]) || s.procs[i].state.Zombie?)
    ensures
      var path := Ancestry(s, i);
      && path[|path| - 1] == INIT
      && (forall a :: 0 <= a < |path| ==> path[a] < NPROC && s.born[path[a]] <= s.born[i])
      && (forall a, b :: 0 <= a < b < |path| ==> s.born[path[b]] < s.born[path[a]])
    decreases s.born[i]
  {
    assert ParentOk(s, i);
    if s.procs[i].parent != NONE {
      var up := s.procs[i].parent;
      ChainReachesInit(s, up);
      var path := Ancestry(s, i);
      assert path == [i] + Ancestry(s, up);
      forall a, b | 0 <= a < b < |path| ensures s.born[path[b]] < s.born[path[a]] {
        assert path[b] == Ancestry(s, up)[b - 1];
      }
    }
  }

  /**
   In every run, whenever wait_lock is free, a parent is neither unused nor a zombie, and parents
   lead to init without a cycle.
   */
  lemma TreeInEveryRun(run: seq<State>, steps: seq<Step>, n: nat, i: nat)
    requires IsRun(run, steps) && n < |run| && i < NPROC
    ensures
      var s := run[n];
      && Shape(s) && Tree(s)
      && (s.procs[i].parent != NONE ==> 0 <= s.procs[i].parent < NPROC && Live(s.procs[s.procs[i].parent]))
      && (Live(s.procs[i]) || s.procs[i].state.Zombie? ==>
            var path := Ancestry(s, i);
            path[|path| - 1] == INIT && forall a, b :: 0 <= a < b < |path| ==> path[a] != path[b])
  {
    RunKeeps(run, steps, n);
    var s := run[n];
    assert ParentOk(s, i);
    if Live(s.procs[i]) || s.procs[i].state.Zombie? {
      ChainReachesInit(s, i);
    }
  }

  /** In every run, wait returns each pid at most once, with the status its process exited with. */
  lemma ReapedOnce(run: seq<State>, steps: seq<Step>, n: nat, r: nat)
    requires IsRun(run, steps) && n < |run| && r < |run[n].reaps|
    ensures
      var s := run[n];
      && s.reaps[r].pid in s.exits && s.exits[s.reaps[r].pid] == s.reaps[r].status
      && forall q :: 0 <= q < |s.reaps| && q != r ==> s.reaps[q].pid != s.reaps[r].pid
  {
    RunKeeps(run, steps, n);
  }

  /** In every run, the status recorded at exit is never recorded again: a process exits once. */
  lemma ExitsOnce(run: seq<State>, steps: seq<Step>, n: nat)
    requires IsRun(run, steps) && n < |steps| && steps[n].Exit?
    ensures
      var s, p := run[n], steps[n].p;
      && Shape(s) && p < NPROC && s.procs[p].pid !in s.exits
      && run[n + 1].exits == s.exits[s.procs[p].pid := steps[n].status]
  {
    RunKeeps(run, steps, n);
    assert Next(run[n], steps[n], run[n + 1]);
    assert PidOk(run[n], steps[n].p);
  }

  /** In every run, a zombie keeps its parent or is handed to init, until that parent reaps it. */
  lemma ReapedByParent(run: seq<State>, steps: seq<Step>, n: nat, i: nat)
    requires IsRun(run, steps) && n < |steps| && i < NPROC
    ensures
      var s, s' := run[n], run[n + 1];
      && Shape(s) && Shape(s')
      && (s.procs[i].state.Zombie? ==>
            || (&& s'.procs[i].state.Zombie? && s'.procs[i].pid == s.procs[i].pid
                && s'.procs[i].xstate == s.procs[i].xstate
                && (|| s'.procs[i].parent == s.procs[i].parent
                    || (steps[n].Exit? && steps[n].p == s.procs[i].parent && s'.procs[i].parent == INIT)))
            || (steps[n].Wait? && steps[n].p == s.procs[i].parent && s'.procs[i] == FREED
                && s'.reaps == s.reaps + [Reap(s.procs[i].pid, s.procs[i].xstate)]))
  {
    hide Exited, Pids, Reaped;
    var s, step := run[n], steps[n];
    RunKeeps(run, steps, n);
    assert Next(s, step, run[n + 1]);
    StepShape(s, step);
    assert ForkOk(s, step.p) && ParentOk(s, step.p);
    if step.Exit? {
      ExitedAt(s.procs, step.p, step.status, i);
    }
  }

  // ---------- wait and exit ----------

  /** Who sleeps on a process sleeps in wait, on itself, has a child, and none that is a zombie. */
  ghost predicate WaiterOk(s: State, i: nat)
    requires Shape(s) && i < NPROC
  {
    s.procs[i].state.Sleeping? && 0 <= s.procs[i].chan < NPROC ==>
      s.procs[i].chan == i && HasChild(s.procs, i) && FirstZombie(s.procs, i, 0) == NONE
  }

  ghost predicate Waiters(s: State)
    requires Shape(s)
  {
    forall i :: 0 <= i < NPROC ==> WaiterOk(s, i)
  }

  lemma ExitKeepsWaiter(s: State, step: Step, i: nat)
    requires Inv(s) && step.Exit? && Enabled(s, step) && Shape(After(s, step)) && i < NPROC && WaiterOk(s, i)
    ensures WaiterOk(After(s, step), i)
  {
    hide Exited, Pids, Reaped;
    var s', p := After(s, step), step.p;
    NotOwnParent(s, p);
    ExitedAt(s.procs, p, step.status, i);
    if i != p && s'.procs[i].state.Sleeping? && 0 <= s'.procs[i].chan < NPROC {
      ExitWakes(s.procs, p, step.status, i);
      forall c | 0 <= c < NPROC ensures !(s'.procs[c].parent == i && s'.procs[c].state.Zombie?) {
        ExitedAt(s.procs, p, step.status, c);
      }
      var c :| 0 <= c < NPROC && s.procs[c].parent == i;
      ExitedAt(s.procs, p, step.status, c);
      assert s'.procs[c].parent == i;
    }
  }

  lemma StepKeepsWaiter(s: State, step: Step, i: nat)
    requires Inv(s) && Enabled(s, step) && Shape(After(s, step)) && i < NPROC && WaiterOk(s, i)
    ensures WaiterOk(After(s, step), i)
  {
    hide Exited, Pids, Reaped;
    if step.Exit? {
      ExitKeepsWaiter(s, step, i);
    } else {
      var s', x := After(s, step), Slot(s, step);
      assert ForkOk(s, step.p) && ParentOk(s, x);
      if s'.procs[i].state.Sleeping? && 0 <= s'.procs[i].chan < NPROC {
        var c :| 0 <= c < NPROC && s.procs[c].parent == i;
        assert s'.procs[c].parent == i;
      }
    }
  }

  lemma {:induction false} RunKeepsWaiters(run: seq<State>, steps: seq<Step>, n: nat)
    requires IsRun(run, steps) && n < |run|
    ensures Inv(run[n]) && Waiters(run[n])
  {
    hide After, Enabled, Tree, Pids, Reaped, WaiterOk;
    RunKeeps(run, steps, n);
    if n == 0 {
      NobodyWaits(run[0]);
    } else {
      RunKeepsWaiters(run, steps, n - 1);
      assert Next(run[n - 1], steps[n - 1], run[n]);
      forall i | 0 <= i < NPROC ensures WaiterOk(run[n], i) {
        StepKeepsWaiter(run[n - 1], steps[n - 1], i);
      }
    }
  }

  lemma NobodyWaits(s: State)
    requires Init(s)
    ensures Waiters(s)
  {
  }

  /**
   In every run, a process asleep in wait has a child, and none of its children is a zombie: exit has
   woken every parent that has one to reap.
   */
  lemma NoZombieWaitsForSleeper(run: seq<State>, steps: seq<Step>, n: nat, i: nat)
    requires IsRun(run, steps) && n < |run| && i < NPROC
    ensures
      var s := run[n];
      && Shape(s)
      && (s.procs[i].state.Sleeping? && s.procs[i].chan == i ==>
            && (exists c :: 0 <= c < NPROC && s.procs[c].parent == i)
            && (forall c :: 0 <= c < NPROC && s.procs[c].parent == i ==> !s.procs[c].state.Zombie?))
  {
    hide Tree, Pids, Reaped;
    RunKeepsWaiters(run, steps, n);
    assert WaiterOk(run[n], i);
  }

  /** Who went to sleep in wait and has not been woken since still sleeps there. */
  lemma {:induction false} StillWaits(run: seq<State>, steps: seq<Step>, i: nat, n: nat, p: nat)
    requires IsRun(run, steps) && i < n < |run| && steps[i] == WaitSleep(p) && p < NPROC
    requires forall j :: i < j <= n ==> Shape(run[j]) && run[j].procs[p].state.Sleeping?
    ensures Shape(run[n]) && run[n].procs[p].chan == p
  {
    hide Exited, Tree, Pids, Reaped;
    var s, step := run[n - 1], steps[n - 1];
    assert Next(s, step, run[n]);
    if i + 1 < n {
      StillWaits(run, steps, i, n - 1, p);
      RunKeeps(run, steps, n - 1);
      assert Shape(s) && s.procs[p].state.Sleeping?;
      SameChannel(s, step, p);
    }
  }

  lemma SameChannel(s: State, step: Step, p: nat)
    requires Inv(s) && Enabled(s, step) && p < NPROC && s.procs[p].state.Sleeping?
    requires Shape(After(s, step)) && After(s, step).procs[p].state.Sleeping?
    ensures After(s, step).procs[p].chan == s.procs[p].chan
  {
    hide Exited, Pids, Reaped;
    assert ForkOk(s, step.p) && ParentOk(s, p);
    if step.Exit? {
      NotOwnParent(s, step.p);
      ExitWakes(s.procs, step.p, step.status, p);
    }
  }

  /** In every run, as long as a process stays asleep in wait, none of its children becomes a zombie. */
  lemma WaiterIsWoken(run: seq<State>, steps: seq<Step>, i: nat, n: nat, p: nat)
    requires IsRun(run, steps) && i < n < |run| && steps[i] == WaitSleep(p) && p < NPROC
    requires forall j :: i < j <= n ==> Shape(run[j]) && run[j].procs[p].state.Sleeping?
    ensures Shape(run[n]) && exists c :: 0 <= c < NPROC && run[n].procs[c].parent == p
    ensures forall c :: 0 <= c < NPROC && run[n].procs[c].parent == p ==> !run[n].procs[c].state.Zombie?
  {
    hide Init, Next;
    StillWaits(run, steps, i, n, p);
    NoZombieWaitsForSleeper(run, steps, n, p);
  }

  // ---------- fork ----------

  /** Process p is making the child in slot np, which has that pid and no other parent. */
  ghost predicate Making(s: State, p: nat, np: nat, pid: nat) {
    && Shape(s) && p < NPROC && np < NPROC && s.forking[p] == np
    && s.procs[np].state == Used && s.procs[np].pid == pid && (s.procs[np].parent == NONE || s.procs[np].parent == p)
  }

  lemma StepKeepsMaking(s: State, step: Step, p: nat, np: nat, pid: nat)
    requires Inv(s) && Enabled(s, step) && Making(s, p, np, pid) && step != ForkFail(p) && step != ForkStart(p)
    ensures Making(After(s, step), p, np, pid)
  {
    hide Exited, Pids, Reaped;
    assert ForkOk(s, p) && ForkOk(s, step.p) && ParentOk(s, step.p);
    if step.Exit? {
      ExitedAt(s.procs, step.p, step.status, np);
    }
  }

  lemma {:induction false} RunKeepsMaking(run: seq<State>, steps: seq<Step>, i: nat, n: nat, p: nat, np: nat)
    requires IsRun(run, steps) && i < n < |run| && steps[i] == ForkAlloc(p, np)
    requires forall j :: i < j < n ==> steps[j] != ForkFail(p) && steps[j] != ForkStart(p)
    ensures Making(run[n], p, np, run[i].nextpid)
  {
    hide Enabled, Inv, Exited;
    RunKeeps(run, steps, n - 1);
    assert Next(run[n - 1], steps[n - 1], run[n]);
    if i + 1 < n {
      hide After;
      RunKeepsMaking(run, steps, i, n - 1, p, np);
      StepKeepsMaking(run[n - 1], steps[n - 1], p, np, run[i].nextpid);
    } else {
      StartsMaking(run[i], p, np);
    }
  }

  lemma StartsMaking(s: State, p: nat, np: nat)
    requires Inv(s) && Enabled(s, ForkAlloc(p, np))
    ensures Making(After(s, ForkAlloc(p, np)), p, np, s.nextpid)
  {
    assert ParentOk(s, np);
  }

  /**
   In every run, a fork that is not given up ends with a runnable child of the caller in the slot that
   allocproc found, whose pid nobody has or had.
   */
  lemma ForkMakesChild(run: seq<State>, steps: seq<Step>, i: nat, n: nat, p: nat, np: nat)
    requires IsRun(run, steps) && i < n < |steps| && steps[i] == ForkAlloc(p, np) && steps[n] == ForkStart(p)
    requires forall j :: i < j < n ==> steps[j] != ForkFail(p) && steps[j] != ForkStart(p)
    ensures
      var s, s', pid := run[i], run[n + 1], run[i].nextpid;
      && Shape(s) && Shape(s') && p < NPROC && np < NPROC
      && s'.procs[np].state == Runnable && s'.procs[np].parent == p && s'.procs[np].pid == pid
      && s'.forking[p] == NONE && pid !in s.exits
      && forall k :: 0 <= k < NPROC && !s.procs[k].state.Unused? ==> s.procs[k].pid != pid
  {
    hide Tree, Reaped;
    RunKeepsMaking(run, steps, i, n, p, np);
    RunKeeps(run, steps, i);
    assert Next(run[i], steps[i], run[i + 1]) && Next(run[n], steps[n], run[n + 1]);
    forall k | 0 <= k < NPROC && !run[i].procs[k].state.Unused? ensures run[i].procs[k].pid != run[i].nextpid {
      assert PidOk(run[i], k);
    }
  }

  // ---------- fork, exit and wait together ----------

  lemma Extended(run: seq<State>, steps: seq<Step>, step: Step)
    requires IsRun(run, steps) && Shape(run[|steps|]) && Enabled(run[|steps|], step)
    ensures IsRun(run + [After(run[|steps|], step)], steps + [step])
  {
    hide After, Enabled;
    var run', steps' := run + [After(run[|steps|], step)], steps + [step];
    forall i, j | 0 <= i && j == i + 1 < |run'| ensures Next(run'[i], steps'[i], run'[j]) {
      if i < |steps| {
        assert Next(run[i], steps[i], run[j]);
      }
    }
  }

  /** The exit of a process without children, when its parent alone waits for it. */
  lemma LoneExit(procs: seq<Proc>, p: nat, c: nat, status: int)
    requires c < |procs| && p < |procs| && p != c && !HasChild(procs, c) && procs[c].parent == p
    requires procs[p].state.Sleeping? && procs[p].chan == p
    requires forall i :: 0 <= i < |procs| && i != p && procs[i].state.Sleeping? ==> procs[i].chan != p
    ensures Exited(procs, c, status) ==
            procs[p := procs[p].(state := Runnable)][c := procs[c].(xstate := status, state := Zombie)]
  {
    assert Reparented(procs, c) == procs;
  }

  lemma OnlyZombie(procs: seq<Proc>, p: int, c: nat, from: nat)
    requires from <= c < |procs| && procs[c].parent == p && procs[c].state.Zombie?
    requires forall i :: 0 <= i < |procs| && i != c ==> !(procs[i].parent == p && procs[i].state.Zombie?)
    ensures FirstZombie(procs, p, from) == c
    decreases c - from
  {
  }

  /** The slots after a fork into np: a runnable child of p. */
  lemma Forks(run: seq<State>, steps: seq<Step>, s: State, p: nat, np: nat) returns (run': seq<State>, s': State)
    requires IsRun(run, steps) && run[|steps|] == s && Shape(s) && p < NPROC && np < NPROC && p != np
    requires s.procs[p].state.Running? && !Forking(s, p) && s.procs[np] == FREED
    ensures IsRun(run', steps + [ForkAlloc(p, np)] + [ForkLink(p)] + [ForkStart(p)]) && |run'| == |steps| + 4
    ensures run'[|steps| + 3] == s' && Shape(s') && s'.forking == s.forking[p := NONE]
    ensures s'.procs == s.procs[np := Proc(Runnable, s.nextpid, p, NONE, 0)]
    ensures s'.reaps == s.reaps && s'.exits == s.exits
  {
    hide IsRun, Exited;
    var s1 := After(s, ForkAlloc(p, np));
    Extended(run, steps, ForkAlloc(p, np));
    RunLength(run, steps);
    RunLength(run + [s1], steps + [ForkAlloc(p, np)]);
    var s2 := After(s1, ForkLink(p));
    Extended(run + [s1], steps + [ForkAlloc(p, np)], ForkLink(p));
    RunLength(run + [s1] + [s2], steps + [ForkAlloc(p, np)] + [ForkLink(p)]);
    s' := After(s2, ForkStart(p));
    Extended(run + [s1] + [s2], steps + [ForkAlloc(p, np)] + [ForkLink(p)], ForkStart(p));
    run' := run + [s1] + [s2] + [s'];
  }

  lemma RunLength(run: seq<State>, steps: seq<Step>)
    requires IsRun(run, steps)
    ensures |run| == |steps| + 1
  {
  }

  /** The parent waits, the child runs and exits, and the parent wakes and reaps it. */
  lemma Reaps(run: seq<State>, steps: seq<Step>, s: State, p: nat, c: nat, status: int)
    returns (run': seq<State>, s': State)
    requires IsRun(run, steps) && run[|steps|] == s && Shape(s) && p < NPROC && c < NPROC && p != c && c != INIT
    requires s.procs[p].state.Running? && !Forking(s, p) && s.procs[c].state.Runnable? && s.procs[c].parent == p
    requires !Forking(s, c) && !HasChild(s.procs, c)
    requires forall i :: 0 <= i < NPROC && s.procs[i].state.Sleeping? ==> s.procs[i].chan != p
    requires forall i :: 0 <= i < NPROC ==> !(s.procs[i].parent == p && s.procs[i].state.Zombie?)
    ensures IsRun(run', steps + [WaitSleep(p)] + [Resume(c)] + [Exit(c, status)] + [Resume(p)] + [Wait(p)])
    ensures |run'| == |steps| + 6 && run'[|steps| + 5] == s' && Shape(s')
    ensures s'.procs == s.procs[p := s.procs[p].(chan := NONE)][c := FREED]
    ensures s'.reaps == s.reaps + [Reap(s.procs[c].pid, status)]
  {
    hide IsRun, Exited;
    RunLength(run, steps);
    var s1 := After(s, WaitSleep(p));
    Extended(run, steps, WaitSleep(p));
    var s2 := After(s1, Resume(c));
    Extended(run + [s1], steps + [WaitSleep(p)], Resume(c));
    assert !HasChild(s2.procs, c);
    LoneExit(s2.procs, p, c, status);
    var steps2 := steps + [WaitSleep(p)] + [Resume(c)];
    var s3 := After(s2, Exit(c, status));
    Extended(run + [s1] + [s2], steps2, Exit(c, status));
    var s4 := After(s3, Resume(p));
    Extended(run + [s1] + [s2] + [s3], steps2 + [Exit(c, status)], Resume(p));
    OnlyZombie(s4.procs, p, c, 0);
    s' := After(s4, Wait(p));
    Extended(run + [s1] + [s2] + [s3] + [s4], steps2 + [Exit(c, status)] + [Resume(p)], Wait(p));
    run' := run + [s1] + [s2] + [s3] + [s4] + [s'];
  }

  /**
   From every reachable state in which a running process has no zombie child and a slot is unused: it can
   fork and wait, the child's exit wakes it, and wait returns the child's pid and status and leaves the
   table as it was.
   */
  lemma ForkExitWait(run: seq<State>, steps: seq<Step>, p: nat, np: nat, status: int)
    returns (run': seq<State>, s': State)
    requires IsRun(run, steps) && Shape(run[|steps|]) && p < NPROC && np < NPROC
    requires
      var s := run[|steps|];
      && s.procs[p].state.Running? && !Forking(s, p) && s.procs[np].state.Unused?
      && FirstZombie(s.procs, p, 0) == NONE
    ensures
      var s := run[|steps|];
      && IsRun(run', steps + [ForkAlloc(p, np)] + [ForkLink(p)] + [ForkStart(p)]
                     + [WaitSleep(p)] + [Resume(np)] + [Exit(np, status)] + [Resume(p)] + [Wait(p)])
      && |run'| == |steps| + 9 && run'[|steps| + 8] == s'
      && s'.procs == s.procs[p := s.procs[p].(chan := NONE)] && s'.reaps == s.reaps + [Reap(s.nextpid, status)]
  {
    hide IsRun, Pids, Reaped;
    RunLength(run, steps);
    var s := run[|steps|];
    RunKeepsWaiters(run, steps, |steps|);
    assert ParentOk(s, np) && ForkOk(s, np);
    Childless(s, np);
    NobodyWaitsFor(s, p);
    hide Inv, Waiters;
    var s3;
    run', s3 := Forks(run, steps, s, p, np);
    assert !HasChild(s3.procs, np);
    run', s' := Reaps(run', steps + [ForkAlloc(p, np)] + [ForkLink(p)] + [ForkStart(p)], s3, p, np, status);
    assert s'.procs == s.procs[p := s.procs[p].(chan := NONE)];
  }

  /** A fork that is given up leaves nothing behind. */
  lemma ForkGivenUp(run: seq<State>, steps: seq<Step>, p: nat, np: nat) returns (run': seq<State>, s': State)
    requires IsRun(run, steps) && Shape(run[|steps|]) && p < NPROC && np < NPROC
    requires
      var s := run[|steps|];
      s.procs[p].state.Running? && !Forking(s, p) && s.procs[np].state.Unused?
    ensures
      var s := run[|steps|];
      && IsRun(run', steps + [ForkAlloc(p, np)] + [ForkFail(p)]) && |run'| == |steps| + 3 && run'[|steps| + 2] == s'
      && s'.procs == s.procs && s'.forking == s.forking[p := NONE] && s'.reaps == s.reaps && s'.exits == s.exits
  {
    hide Exited, Pids, Reaped;
    var s := run[|steps|];
    RunKeeps(run, steps, |steps|);
    assert ParentOk(s, np);
    var s1 := After(s, ForkAlloc(p, np));
    Extended(run, steps, ForkAlloc(p, np));
    hide IsRun;
    s' := After(s1, ForkFail(p));
    Extended(run + [s1], steps + [ForkAlloc(p, np)], ForkFail(p));
    run' := run + [s1] + [s'];
  }

  /** Any other sleep ends too, and changes nothing else. */
  lemma SleepsAndWakes(run: seq<State>, steps: seq<Step>, p: nat, chan: int) returns (run': seq<State>, s': State)
    requires IsRun(run, steps) && Shape(run[|steps|]) && p < NPROC && run[|steps|].procs[p].state.Running?
    requires !(0 <= chan < NPROC)
    ensures
      var s := run[|steps|];
      && IsRun(run', steps + [Sleep(p, chan)] + [Ready(p)] + [Resume(p)])
      && |run'| == |steps| + 4 && run'[|steps| + 3] == s' && s' == s.(procs := s.procs[p := s.procs[p].(chan := NONE)])
      && run'[|steps| + 1] == s.(procs := s.procs[p := s.procs[p].(state := Sleeping, chan := chan)])
  {
    hide Exited, IsRun;
    RunLength(run, steps);
    var s := run[|steps|];
    var s1 := After(s, Sleep(p, chan));
    Extended(run, steps, Sleep(p, chan));
    var s2 := After(s1, Ready(p));
    Extended(run + [s1], steps + [Sleep(p, chan)], Ready(p));
    s' := After(s2, Resume(p));
    Extended(run + [s1] + [s2], steps + [Sleep(p, chan)] + [Ready(p)], Resume(p));
    run' := run + [s1] + [s2] + [s'];
  }

  lemma Childless(s: State, c: nat)
    requires Shape(s) && Tree(s) && c < NPROC && s.procs[c].state.Unused?
    ensures !HasChild(s.procs, c) && !Forking(s, c)
  {
    forall i | 0 <= i < NPROC ensures s.procs[i].parent != c {
      assert ParentOk(s, i);
    }
    assert ForkOk(s, c);
  }

  lemma NobodyWaitsFor(s: State, p: nat)
    requires Shape(s) && Waiters(s) && p < NPROC && s.procs[p].state.Running?
    ensures forall i :: 0 <= i < NPROC && s.procs[i].state.Sleeping? ==> s.procs[i].chan != p
  {
    forall i | 0 <= i < NPROC && s.procs[i].state.Sleeping? ensures s.procs[i].chan != p {
      assert WaiterOk(s, i);
    }
  }
}
