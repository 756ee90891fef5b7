/**
 Nobody is stuck at the sleep lock: from every reachable state there is a schedule that brings any
 given process into its critical section. The process with lk->lk gives it up, the owner of the sleep
 lock releases it and wakes the sleepers, and then the way is free.
 */
module SleepProgress {

  import opened Params
  import opened SleepWakeup

  // ---------- two more invariants ----------

  ghost predicate HasOwner(s: State)
    requires Shape(s)
  {
    exists i :: 0 <= i < NPROC && Owns(s.procs[i].pc)
  }

  ghost predicate Asleep(p: Proc) {
    (p.pc.Switching? || p.pc.Off?) ==> p.status != Running
  }

  /** A locked lock has an owner, and a process that is off the processor is asleep or runnable. */
  ghost predicate Live(s: State)
    ensures Live(s) ==> Shape(s)
  {
    Inv(s) && (s.locked ==> HasOwner(s)) && forall i :: 0 <= i < NPROC ==> Asleep(s.procs[i])
  }

  lemma StepAsleep(s: State, i: nat, s': State, k: nat)
    requires Shape(s) && i < NPROC && k < NPROC && (Step(s, i, s') || Kill(s, i, s')) && Asleep(s.procs[k])
    ensures Shape(s') && Asleep(s'.procs[k])
  {
    hide Step;
    if Kill(s, i, s') {
      OneMoves(s, i, s');
    } else if Waking(s.procs[i].pc) {
      ScanAsleep(s, i, s', k);
    } else if k != i {
      OneMoves(s, i, s');
    } else {
      OwnAsleep(s, i, s');
    }
  }

  lemma ScanAsleep(s: State, i: nat, s': State, k: nat)
    requires Shape(s) && i < NPROC && k < NPROC && Step(s, i, s') && Waking(s.procs[i].pc) && Asleep(s.procs[k])
    ensures Shape(s') && Asleep(s'.procs[k])
  {
  }

  lemma OwnAsleep(s: State, i: nat, s': State)
    requires Shape(s) && i < NPROC && Step(s, i, s') && !Waking(s.procs[i].pc) && Asleep(s.procs[i])
    ensures Shape(s') && Asleep(s'.procs[i])
  {
  }

  /** The owner keeps the lock until it clears it. */
  lemma StaysOwner(s: State, i: nat, s': State, o: nat)
    requires Shape(s) && i < NPROC && o < NPROC && (Step(s, i, s') || Kill(s, i, s')) && Owns(s.procs[o].pc)
    ensures Shape(s') && (s'.locked ==> Owns(s'.procs[o].pc))
  {
    if i != o {
      OthersStay(s, i, s', o);
    }
  }

  /** Who sets locked owns the lock. */
  lemma LocksIt(s: State, i: nat, s': State)
    requires Shape(s) && i < NPROC && (Step(s, i, s') || Kill(s, i, s')) && !s.locked
    ensures Shape(s') && (s'.locked ==> Owns(s'.procs[i].pc))
  {
  }

  lemma StepLive(s: State, s': State)
    requires Live(s) && Next(s, s')
    ensures Live(s')
  {
    hide Step, Kill, Inv, Asleep, Owns;
    StepKeeps(s, s');
    var i :| 0 <= i < NPROC && (Step(s, i, s') || Kill(s, i, s'));
    forall k | 0 <= k < NPROC ensures Asleep(s'.procs[k]) {
      StepAsleep(s, i, s', k);
    }
    if s.locked {
      var o :| 0 <= o < NPROC && Owns(s.procs[o].pc);
      StaysOwner(s, i, s', o);
    } else {
      LocksIt(s, i, s');
    }
  }

  lemma {:induction false} RunLive(run: seq<State>, n: nat)
    requires IsRun(run) && n < |run|
    ensures Live(run[n])
  {
    hide Next, Inv;
    if n == 0 {
      InitEstablishes(run[0]);
    } else {
      RunLive(run, n - 1);
      assert Next(run[n - 1], run[n]);
      StepLive(run[n - 1], run[n]);
    }
  }

  // ---------- schedules ----------

  /** The states of path follow s, one step each, and end in s'. */
  ghost predicate Leads(s: State, path: seq<State>, s': State)
    decreases path
  {
    if path == [] then s' == s else Next(s, path[0]) && Leads(path[0], path[1..], s')
  }

  lemma {:induction false} Joined(s: State, p: seq<State>, m: State, q: seq<State>, s': State)
    requires Leads(s, p, m) && Leads(m, q, s')
    ensures Leads(s, p + q, s')
    decreases p
  {
    if p == [] {
      assert p + q == q;
    } else {
      Joined(p[0], p[1..], m, q, s');
      assert (p + q)[1..] == p[1..] + q;
    }
  }

  /** One step of process i, and then a path. */
  lemma First(s: State, i: nat, m: State, path: seq<State>, s': State)
    requires Shape(s) && i < NPROC && Step(s, i, m) && Leads(m, path, s')
    ensures Leads(s, [m] + path, s')
  {
    hide Step;
    assert ([m] + path)[1..] == path;
  }

  lemma NoSteps(s: State)
    ensures Leads(s, [], s)
  {
  }

  // ---------- the spinlock is given up ----------

  /** What the holder of lk->lk has left to do before it releases it. */
  function ToDo(pc: Pc): nat {
    match pc
    case Testing => 3
    case WantOwn => 2
    case BothHeld => 1
    case Entered => 1
    case Leaving => 1
    case Clearing => 2 * NPROC + 3
    case Scanning(j) => if j < NPROC then 2 * (NPROC - j) + 2 else 2
    case Looking(j) => if j < NPROC then 2 * (NPROC - j) + 1 else 2
    case _ => 0
  }

  function Target(pc: Pc): int {
    if pc.Scanning? then pc.j else -1
  }

  /** What process j has left to do before it releases its own lock. */
  function OwnToDo(s: State, j: int): nat
    requires Shape(s)
  {
    if !(0 <= j < NPROC) then 0
    else match s.procs[j].pc
      case Dropping => 2
      case Switching => 1
      case Resumed => 1
      case _ => 0
  }

  /** Whether the holder of lk->lk is releasing the sleep lock. */
  predicate InRelease(pc: Pc) {
    pc.Clearing? || pc.Scanning? || pc.Looking? || pc.Leaving?
  }

  /**
   With lk->lk held, its holder can move, or the process whose lock it waits for can; either way
   there is less to do.
   */
  lemma SpinMoves(s: State) returns (i: nat, m: State)
    requires Inv(s) && s.spin != NOBODY
    ensures i < NPROC && Step(s, i, m) && Shape(m)
    ensures m.spin == NOBODY ==> (InRelease(s.procs[s.spin].pc) ==> !m.locked)
    ensures m.spin != NOBODY ==>
              && m.spin == s.spin && (InRelease(s.procs[s.spin].pc) ==> InRelease(m.procs[s.spin].pc))
              && var pc, pc' := s.procs[s.spin].pc, m.procs[s.spin].pc;
              && ToDo(pc') <= ToDo(pc)
              && (ToDo(pc') == ToDo(pc) ==> pc' == pc && OwnToDo(m, Target(pc)) < OwnToDo(s, Target(pc)))
  {
    var h := s.spin;
    var p := s.procs[h];
    assert SpinOk(s, h) && OwnOk(s, h);
    i := h;
    match p.pc
    case Testing =>
      m := if s.locked then Moved(s, h, p.(pc := WantOwn)) else Moved(s, h, p.(pc := Entered)).(locked := true);
    case WantOwn =>
      NoLooker(s, h);
      m := Moved(s, h, p.(pc := BothHeld, lockedBy := h));
    case BothHeld => m := Moved(s, h, p.(pc := Dropping)).(spin := NOBODY);
    case Entered => m := Moved(s, h, p.(pc := Critical)).(spin := NOBODY);
    case Clearing => m := Moved(s, h, p.(pc := Scanning(0))).(locked := false);
    case Leaving => m := Moved(s, h, p.(pc := Outside)).(spin := NOBODY);
    case Looking(j) =>
      var q := s.procs[j];
      m := Moved(Moved(s, h, p.(pc := Scanning(j + 1))), j,
                 q.(lockedBy := NOBODY, status := if q.status == Sleeping && q.onChan then Runnable else q.status));
    case Scanning(j) => i, m := ScanMoves(s, h, j);
  }

  /** Nobody else is looking at a process while h, which is not, holds lk->lk. */
  lemma NoLooker(s: State, j: nat)
    requires Inv(s) && j < NPROC && (s.spin == NOBODY || !s.procs[s.spin].pc.Looking?)
    ensures s.procs[j].lockedBy == NOBODY || s.procs[j].lockedBy == j
    ensures s.procs[j].lockedBy == j <==> HoldsOwn(s.procs[j].pc)
  {
    assert OwnOk(s, j);
    var w := s.procs[j].lockedBy;
    assert 0 <= w < NPROC ==> SpinOk(s, w);
  }

  lemma ScanMoves(s: State, h: nat, j: nat) returns (i: nat, m: State)
    requires Inv(s) && h < NPROC && s.spin == h && s.procs[h].pc == Scanning(j)
    ensures i < NPROC && Step(s, i, m) && Shape(m) && m.spin == h && InRelease(m.procs[h].pc)
    ensures
      var pc' := m.procs[h].pc;
      && ToDo(pc') <= ToDo(Scanning(j))
      && (ToDo(pc') == ToDo(Scanning(j)) ==> pc' == Scanning(j) && OwnToDo(m, j) < OwnToDo(s, j))
  {
    var p := s.procs[h];
    i := h;
    if j >= NPROC {
      m := Moved(s, h, p.(pc := Leaving));
    } else if j == h {
      m := Moved(s, h, p.(pc := Scanning(j + 1)));
    } else {
      NoLooker(s, j);
      var q := s.procs[j];
      if q.lockedBy == NOBODY {
        m := Moved(Moved(s, h, p.(pc := Looking(j))), j, q.(lockedBy := h));
      } else {
        i := j;
        assert SpinOk(s, j);
        if q.pc.Dropping? {
          m := Moved(s, j, q.(pc := Switching, onChan := true, status := Sleeping));
        } else if q.pc.Switching? {
          m := Moved(s, j, q.(pc := Off, lockedBy := NOBODY));
        } else {
          m := Moved(s, j, q.(pc := WantSpin, onChan := false, lockedBy := NOBODY));
        }
      }
    }
  }

  /** From every state lk->lk can come free, and if a release was under way the sleep lock is free as well. */
  lemma {:induction false} SpinComesFree(s: State) returns (path: seq<State>, s': State)
    requires Live(s)
    ensures Leads(s, path, s') && Live(s') && s'.spin == NOBODY
    ensures s.spin == NOBODY ==> s' == s
    ensures s.spin != NOBODY && InRelease(s.procs[s.spin].pc) ==> !s'.locked
    decreases
      if s.spin == NOBODY then 0 else 1 + ToDo(s.procs[s.spin].pc),
      if s.spin == NOBODY then 0 else OwnToDo(s, Target(s.procs[s.spin].pc))
  {
    hide Step, Inv;
    path, s' := [], s;
    if s.spin != NOBODY {
      SpinIsProcess(s);
      var i, m := SpinMoves(s);
      assert Next(s, m);
      StepLive(s, m);
      path, s' := SpinComesFree(m);
      First(s, i, m, path, s');
      path := [m] + path;
    }
  }

  lemma SpinIsProcess(s: State)
    requires Inv(s) && s.spin != NOBODY
    ensures 0 <= s.spin < NPROC
  {
  }

  // ---------- the sleep lock is released ----------

  /** From every state both locks can come free. */
  lemma LocksComeFree(s: State) returns (path: seq<State>, s': State)
    requires Live(s)
    ensures Leads(s, path, s') && Live(s') && s'.spin == NOBODY && !s'.locked
  {
    hide Step, Inv, Leads;
    var m;
    path, m := SpinComesFree(s);
    s' := m;
    if m.locked {
      var o :| 0 <= o < NPROC && Owns(m.procs[o].pc);
      var clearing, c := StartsRelease(m, o);
      Joined(s, path, m, clearing, c);
      var rest;
      rest, s' := SpinComesFree(c);
      Joined(s, path + clearing, c, rest, s');
      path := path + clearing + rest;
    }
  }

  /** The owner comes to releasesleep and takes lk->lk. */
  lemma StartsRelease(s: State, o: nat) returns (path: seq<State>, s': State)
    requires Live(s) && s.spin == NOBODY && o < NPROC && Owns(s.procs[o].pc)
    ensures Leads(s, path, s') && Live(s') && s'.spin == o && InRelease(s'.procs[o].pc)
    decreases s.procs[o].pc.Critical?
  {
    assert SpinOk(s, o);
    hide Inv, Leads;
    var p := s.procs[o];
    if p.pc.Critical? {
      var m := Moved(s, o, p.(pc := WantClear));
      assert Step(s, o, m);
      assert Next(s, m);
      StepLive(s, m);
      path, s' := StartsRelease(m, o);
      First(s, o, m, path, s');
      path := [m] + path;
    } else {
      s' := Moved(s, o, p.(pc := Clearing)).(spin := o);
      assert Step(s, o, s');
      assert Next(s, s');
      StepLive(s, s');
      NoSteps(s');
      First(s, o, s', [], s');
      path := [s'] + [];
    }
  }

  // ---------- the way in ----------

  /** With both locks free nobody is asleep, and every process can come to the start of acquiresleep. */
  lemma ComesToStart(s: State, p: nat) returns (path: seq<State>, s': State)
    requires Live(s) && s.spin == NOBODY && !s.locked && p < NPROC
    ensures Leads(s, path, s') && Live(s') && s'.spin == NOBODY && !s'.locked && s'.procs[p].pc.WantSpin?
    decreases AwayFromStart(s, p)
  {
    assert SpinOk(s, p) && SleepOk(s, p);
    NoLooker(s, p);
    hide Inv;
    path, s' := [], s;
    var q := s.procs[p];
    if !q.pc.WantSpin? {
      var m :=
        if q.pc.Outside? then Moved(s, p, q.(pc := WantSpin))
        else if q.pc.Switching? then Moved(s, p, q.(pc := Off, lockedBy := NOBODY))
        else if q.pc.Off? then Moved(s, p, q.(pc := Resumed, status := Running, lockedBy := p))
        else Moved(s, p, q.(pc := WantSpin, onChan := false, lockedBy := NOBODY));
      assert Asleep(q);
      assert Step(s, p, m);
      assert Next(s, m);
      StepLive(s, m);
      path, s' := ComesToStart(m, p);
      First(s, p, m, path, s');
      path := [m] + path;
    }
  }

  function AwayFromStart(s: State, p: nat): nat
    requires Shape(s) && p < NPROC
  {
    match s.procs[p].pc
    case WantSpin => 0
    case Switching => 3
    case Off => 2
    case _ => 1
  }

  /** From the start of acquiresleep, with both locks free, three steps lead into the critical section. */
  lemma EntersFree(s: State, p: nat) returns (path: seq<State>, s': State)
    requires Shape(s) && s.spin == NOBODY && !s.locked && p < NPROC && s.procs[p].pc.WantSpin?
    ensures Leads(s, path, s') && Shape(s') && s'.procs[p].pc.Critical? && s'.locked
  {
    var q := s.procs[p];
    var s1 := Moved(s, p, q.(pc := Testing)).(spin := p);
    var s2 := Moved(s1, p, q.(pc := Entered)).(locked := true);
    s' := Moved(s2, p, q.(pc := Critical)).(spin := NOBODY);
    assert Step(s, p, s1) && Step(s1, p, s2) && Step(s2, p, s');
    path := [s1] + ([s2] + ([s'] + []));
    NoSteps(s');
    First(s2, p, s', [], s');
    First(s1, p, s2, [s'] + [], s');
    First(s, p, s1, [s2] + ([s'] + []), s');
  }

  /**
   From every state of every run, and for every process, there is a continuation in which that process
   gets the sleep lock.
   */
  lemma CanGetLock(run: seq<State>, n: nat, p: nat) returns (path: seq<State>, s': State)
    requires IsRun(run) && n < |run| && p < NPROC
    ensures Leads(run[n], path, s') && Shape(s') && s'.procs[p].pc.Critical? && s'.locked
  {
    hide Live, Leads;
    RunLive(run, n);
    var free, s1 := LocksComeFree(run[n]);
    var start, s2 := ComesToStart(s1, p);
    Joined(run[n], free, s1, start, s2);
    var enter;
    enter, s' := EntersFree(s2, p);
    Joined(run[n], free + start, s2, enter, s');
    path := free + start + enter;
  }
}
