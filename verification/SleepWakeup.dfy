/**
 A sleep lock under sleep and wakeup, as a transition system: any number of processes call
 acquiresleep and releasesleep on one lock, and every acquisition and release of a spinlock is
 a step of its own. kill may make a sleeper runnable at any time, and the scheduler switches
 processes whenever it can take their lock.

 A process's p->lock is taken by itself in sleep (the scheduler keeps it on the process's
 behalf across swtch), or by a process that scans the table in wakeup.
 */
module SleepWakeup {

  import opened Params

  const NOBODY := -1

  datatype Pc =
    | Outside
    | WantSpin                 // acquiresleep, or sleep on its way out: acquiring lk->lk
    | Testing                  // holds lk->lk, before the while test
    | WantOwn                  // sleep: holds lk->lk, acquiring p->lock
    | BothHeld                 // sleep: before release(lk)
    | Dropping                 // sleep: before p->chan and p->state are set
    | Switching                // sleep: in sched, p->lock not yet released by the scheduler
    | Off                      // not running
    | Resumed                  // back from sched, holds p->lock
    | Entered                  // locked is set, lk->lk still held
    | Critical                 // acquiresleep has returned
    | WantClear                // releasesleep: acquiring lk->lk
    | Clearing                 // releasesleep: before locked is cleared
    | Scanning(j: nat)         // wakeup: about to look at process j
    | Looking(j: nat)          // wakeup: holds process j's lock
    | Leaving                  // releasesleep: before release(&lk->lk)

  datatype Status = Running | Sleeping | Runnable

  datatype Proc = Proc(pc: Pc, status: Status, onChan: bool, lockedBy: int)

  /** spin is who holds lk->lk. */
  datatype State = State(procs: seq<Proc>, spin: int, locked: bool)

  predicate Shape(s: State) {
    |s.procs| == NPROC
  }

  function Moved(s: State, i: nat, p: Proc): State
    requires Shape(s) && i < NPROC
  {
    s.(procs := s.procs[i := p])
  }

  /** Process i, or the scheduler for it, takes one step. */
  ghost predicate Step(s: State, i: nat, s': State)
    requires Shape(s) && i < NPROC
  {
    var p := s.procs[i];
    match p.pc
    case Outside => s' == Moved(s, i, p.(pc := WantSpin))
    case WantSpin => s.spin == NOBODY && s' == Moved(s, i, p.(pc := Testing)).(spin := i)
    case Testing =>
      if s.locked then s' == Moved(s, i, p.(pc := WantOwn))
      else s' == Moved(s, i, p.(pc := Entered)).(locked := true)
    case WantOwn => p.lockedBy == NOBODY && s' == Moved(s, i, p.(pc := BothHeld, lockedBy := i))
    case BothHeld => s' == Moved(s, i, p.(pc := Dropping)).(spin := NOBODY)
    case Dropping => s' == Moved(s, i, p.(pc := Switching, onChan := true, status := Sleeping))
    case Switching => s' == Moved(s, i, p.(pc := Off, lockedBy := NOBODY))
    case Off =>
      && p.status == Runnable && p.lockedBy == NOBODY
      && s' == Moved(s, i, p.(pc := Resumed, status := Running, lockedBy := i))
    case Resumed => s' == Moved(s, i, p.(pc := WantSpin, onChan := false, lockedBy := NOBODY))
    case Entered => s' == Moved(s, i, p.(pc := Critical)).(spin := NOBODY)
    case Critical => s' == Moved(s, i, p.(pc := WantClear))
    case WantClear => s.spin == NOBODY && s' == Moved(s, i, p.(pc := Clearing)).(spin := i)
    case Clearing => s' == Moved(s, i, p.(pc := Scanning(0))).(locked := false)
    case Scanning(j) =>
      if j >= NPROC then s' == Moved(s, i, p.(pc := Leaving))
      else if j == i then s' == Moved(s, i, p.(pc := Scanning(j + 1)))
      else
        && s.procs[j].lockedBy == NOBODY
        && s' == Moved(Moved(s, i, p.(pc := Looking(j))), j, s.procs[j].(lockedBy := i))
    case Looking(j) =>
      && j < NPROC && j != i
      && var q := s.procs[j];
      s' == Moved(Moved(s, i, p.(pc := Scanning(j + 1))), j,
                  q.(lockedBy := NOBODY, status := if q.status == Sleeping && q.onChan then Runnable else q.status))
    case Leaving => s' == Moved(s, i, p.(pc := Outside)).(spin := NOBODY)
  }

  /** kill: under its lock, a sleeper is made runnable. */
  ghost predicate Kill(s: State, i: nat, s': State)
    requires Shape(s) && i < NPROC
  {
    var p := s.procs[i];
    p.lockedBy == NOBODY && s' == Moved(s, i, p.(status := if p.status == Sleeping then Runnable else p.status))
  }

  ghost predicate Next(s: State, s': State) {
    Shape(s) && exists i :: 0 <= i < NPROC && (Step(s, i, s') || Kill(s, i, s'))
  }

  ghost predicate Init(s: State) {
    Shape(s) && s.spin == NOBODY && !s.locked && forall i :: 0 <= i < NPROC ==>
      s.procs[i] == Proc(Outside, Running, false, NOBODY)
  }

  ghost predicate IsRun(run: seq<State>) {
    |run| > 0 && Init(run[0]) && forall i, j :: 0 <= i && j == i + 1 < |run| ==> Next(run[i], run[j])
  }

  // ---------- the invariant ----------

  predicate HoldsSpin(pc: Pc) {
    || pc.Testing? || pc.WantOwn? || pc.BothHeld? || pc.Entered?
    || pc.Clearing? || pc.Scanning? || pc.Looking? || pc.Leaving?
  }

  predicate HoldsOwn(pc: Pc) {
    pc.BothHeld? || pc.Dropping? || pc.Switching? || pc.Resumed?
  }

  /** The sleep lock is the process's: from setting locked to clearing it. */
  predicate Owns(pc: Pc) {
    pc.Entered? || pc.Critical? || pc.WantClear? || pc.Clearing?
  }

  /** Asleep on the lock, or committed to it: lk->lk is already released. */
  predicate Dozing(p: Proc) {
    p.pc.Dropping? || ((p.pc.Switching? || p.pc.Off?) && p.status == Sleeping)
  }

  /** A release is under way whose scan has yet to look at process i. */
  ghost predicate ScanToCome(s: State, i: nat)
    requires Shape(s)
  {
    0 <= s.spin < NPROC && var pc := s.procs[s.spin].pc; (pc.Scanning? || pc.Looking?) && pc.j <= i
  }

  /** Who holds lk->lk, and what that says about locked. */
  ghost predicate SpinOk(s: State, i: nat)
    requires Shape(s) && i < NPROC
  {
    var pc := s.procs[i].pc;
    && (HoldsSpin(pc) <==> s.spin == i)
    && (pc.WantOwn? || pc.BothHeld? ==> s.locked)
    && (pc.Scanning? || pc.Looking? || pc.Leaving? ==> !s.locked)
    && (Owns(pc) ==> s.locked)
  }

  /** Who holds p->lock. */
  ghost predicate OwnOk(s: State, i: nat)
    requires Shape(s) && i < NPROC
  {
    var p := s.procs[i];
    && (HoldsOwn(p.pc) <==> p.lockedBy == i)
    && (p.lockedBy != NOBODY && p.lockedBy != i ==> 0 <= p.lockedBy < NPROC && s.procs[p.lockedBy].pc == Looking(i))
    && (p.pc.Looking? ==> p.pc.j < NPROC && p.pc.j != i && s.procs[p.pc.j].lockedBy == i)
  }

  /** A sleeper sleeps on the lock, and somebody is going to wake it. */
  ghost predicate SleepOk(s: State, i: nat)
    requires Shape(s) && i < NPROC
  {
    var p := s.procs[i];
    && (p.status == Sleeping ==> p.onChan && (p.pc.Switching? || p.pc.Off?))
    && (Dozing(p) ==> s.locked || ScanToCome(s, i))
  }

  ghost predicate AllOk(s: State)
    requires Shape(s)
  {
    forall i :: 0 <= i < NPROC ==> SpinOk(s, i) && OwnOk(s, i) && SleepOk(s, i)
  }

  ghost predicate OneOwner(s: State)
    requires Shape(s)
  {
    forall i, k :: 0 <= i < k < NPROC && Owns(s.procs[i].pc) ==> !Owns(s.procs[k].pc)
  }

  ghost predicate Inv(s: State)
    ensures Inv(s) ==> Shape(s)
  {
    Shape(s) && (s.spin == NOBODY || 0 <= s.spin < NPROC) && AllOk(s) && OneOwner(s)
  }

  lemma InitEstablishes(s: State)
    requires Init(s)
    ensures Inv(s)
  {
  }

  predicate Waking(pc: Pc) {
    pc.Scanning? || pc.Looking?
  }

  /** Any step but those of a scan concerns one process. */
  lemma OneMoves(s: State, i: nat, s': State)
    requires Shape(s) && i < NPROC && ((Step(s, i, s') && !Waking(s.procs[i].pc)) || Kill(s, i, s'))
    ensures Shape(s') && forall k :: 0 <= k < NPROC && k != i ==> s'.procs[k] == s.procs[k]
  {
  }

  lemma SpinKept(s: State, i: nat, s': State, k: nat)
    requires Shape(s) && i < NPROC && k < NPROC && (Step(s, i, s') || Kill(s, i, s'))
    requires SpinOk(s, i) && SpinOk(s, k) && (i != k && Owns(s.procs[i].pc) ==> !Owns(s.procs[k].pc))
    ensures Shape(s') && SpinOk(s', k)
  {
  }

  /** What a step outside a scan does to the process's own lock. */
  lemma OwnLockMoves(s: State, i: nat, s': State)
    requires Shape(s) && i < NPROC && OwnOk(s, i) && Step(s, i, s') && !Waking(s.procs[i].pc)
    ensures Shape(s') && (HoldsOwn(s'.procs[i].pc) <==> s'.procs[i].lockedBy == i)
    ensures s.procs[i].lockedBy != NOBODY && s.procs[i].lockedBy != i ==> s'.procs[i].lockedBy == s.procs[i].lockedBy
    ensures s'.procs[i].lockedBy == s.procs[i].lockedBy || s'.procs[i].lockedBy == i || s'.procs[i].lockedBy == NOBODY
    ensures s'.procs[i].pc.Looking? || s.procs[i].pc.Looking? ==> s'.procs[i].pc == s.procs[i].pc
  {
  }

  lemma OwnKept(s: State, i: nat, s': State, k: nat)
    requires Shape(s) && i < NPROC && k < NPROC && (Step(s, i, s') || Kill(s, i, s'))
    requires OwnOk(s, i) && OwnOk(s, k)
    ensures Shape(s') && OwnOk(s', k)
  {
    if Kill(s, i, s') {
      OwnKilled(s, i, s', k);
    } else if !Waking(s.procs[i].pc) {
      OwnMoved(s, i, s', k);
    } else {
      OwnScan(s, i, s', k);
    }
  }

  lemma OwnMoved(s: State, i: nat, s': State, k: nat)
    requires Shape(s) && i < NPROC && k < NPROC && OwnOk(s, i) && OwnOk(s, k)
    requires Step(s, i, s') && !Waking(s.procs[i].pc)
    ensures Shape(s') && OwnOk(s', k)
  {
    hide Step;
    OneMoves(s, i, s');
    OwnLockMoves(s, i, s');
  }

  lemma OwnKilled(s: State, i: nat, s': State, k: nat)
    requires Shape(s) && i < NPROC && k < NPROC && Kill(s, i, s') && OwnOk(s, k)
    ensures Shape(s') && OwnOk(s', k)
  {
  }

  lemma OwnScan(s: State, i: nat, s': State, k: nat)
    requires Shape(s) && i < NPROC && k < NPROC && Step(s, i, s') && Waking(s.procs[i].pc)
    requires OwnOk(s, i) && OwnOk(s, k)
    ensures Shape(s') && OwnOk(s', k)
  {
    var p := s.procs[i];
    if p.pc.Looking? {
      OwnLooked(s, i, p.pc.j, s', k);
    } else if p.pc.j < NPROC && p.pc.j != i {
      OwnTaken(s, i, p.pc.j, s', k);
    } else {
      assert s' == Moved(s, i, p.(pc := s'.procs[i].pc)) && !s'.procs[i].pc.Looking? && !HoldsOwn(s'.procs[i].pc);
      hide Step;
    }
  }

  lemma OwnTaken(s: State, i: nat, j: nat, s': State, k: nat)
    requires Shape(s) && i < NPROC && j < NPROC && j != i && k < NPROC && s.procs[i].pc == Scanning(j)
    requires s.procs[j].lockedBy == NOBODY
    requires s' == Moved(Moved(s, i, s.procs[i].(pc := Looking(j))), j, s.procs[j].(lockedBy := i))
    requires OwnOk(s, i) && OwnOk(s, k)
    ensures OwnOk(s', k)
  {
  }

  lemma OwnLooked(s: State, i: nat, j: nat, s': State, k: nat)
    requires Shape(s) && i < NPROC && j < NPROC && j != i && k < NPROC && s.procs[i].pc == Looking(j)
    requires |s'.procs| == NPROC
    requires s' == Moved(Moved(s, i, s.procs[i].(pc := Scanning(j + 1))), j,
                         s.procs[j].(lockedBy := NOBODY, status := s'.procs[j].status))
    requires OwnOk(s, i) && OwnOk(s, k)
    ensures OwnOk(s', k)
  {
  }

  /** The heart of the matter: a scan passes no process that is committed to sleep. */
  lemma SleepKept(s: State, i: nat, s': State, k: nat)
    requires Shape(s) && i < NPROC && k < NPROC && (Step(s, i, s') || Kill(s, i, s'))
    requires SpinOk(s, i) && OwnOk(s, i) && OwnOk(s, k) && SleepOk(s, k) && SpinOk(s, k)
    ensures Shape(s') && SleepOk(s', k)
  {
    hide Step, Kill, SpinOk, OwnOk, SleepOk;
    if Kill(s, i, s') {
      SleepKilled(s, i, s', k);
    } else if Waking(s.procs[i].pc) {
      SleepScanned(s, i, s', k);
    } else {
      SleepMoved(s, i, s', k);
    }
  }

  lemma SleepKilled(s: State, i: nat, s': State, k: nat)
    requires Shape(s) && i < NPROC && k < NPROC && Kill(s, i, s') && SleepOk(s, k)
    ensures Shape(s') && SleepOk(s', k)
  {
  }

  lemma SleepScanned(s: State, i: nat, s': State, k: nat)
    requires Shape(s) && i < NPROC && k < NPROC && Step(s, i, s') && Waking(s.procs[i].pc)
    requires SpinOk(s, i) && OwnOk(s, i) && OwnOk(s, k) && SleepOk(s, k) && SpinOk(s, k)
    ensures Shape(s') && SleepOk(s', k)
  {
  }

  lemma SleepMoved(s: State, i: nat, s': State, k: nat)
    requires Shape(s) && i < NPROC && k < NPROC && Step(s, i, s') && !Waking(s.procs[i].pc)
    requires SpinOk(s, i) && OwnOk(s, k) && SleepOk(s, k)
    ensures Shape(s') && SleepOk(s', k)
  {
    if k != i {
      OneMoves(s, i, s');
    }
  }

  lemma OthersStay(s: State, i: nat, s': State, k: nat)
    requires Shape(s) && i < NPROC && k < NPROC && k != i && (Step(s, i, s') || Kill(s, i, s'))
    ensures Shape(s') && s'.procs[k].pc == s.procs[k].pc
  {
  }

  lemma BecomesOwner(s: State, i: nat, s': State)
    requires Shape(s) && i < NPROC && (Step(s, i, s') || Kill(s, i, s'))
    ensures Shape(s') && (Owns(s'.procs[i].pc) ==> Owns(s.procs[i].pc) || !s.locked)
  {
  }

  lemma OneOwnerKept(s: State, i: nat, s': State)
    requires Shape(s) && OneOwner(s) && i < NPROC && (Step(s, i, s') || Kill(s, i, s'))
    requires forall k :: 0 <= k < NPROC && Owns(s.procs[k].pc) ==> s.locked
    ensures Shape(s') && OneOwner(s')
  {
    hide Step, Kill, Owns;
    BecomesOwner(s, i, s');
    forall k | 0 <= k < NPROC && k != i ensures s'.procs[k].pc == s.procs[k].pc {
      OthersStay(s, i, s', k);
    }
  }

  lemma StepKeeps(s: State, s': State)
    requires Inv(s) && Next(s, s')
    ensures Inv(s')
  {
    hide Step, Kill, SpinOk, OwnOk, SleepOk;
    var i :| 0 <= i < NPROC && (Step(s, i, s') || Kill(s, i, s'));
    forall k | 0 <= k < NPROC ensures Owns(s.procs[k].pc) ==> s.locked {
      OwnerLocks(s, k);
    }
    forall k | 0 <= k < NPROC ensures Shape(s') && SpinOk(s', k) && OwnOk(s', k) && SleepOk(s', k) {
      SpinKept(s, i, s', k);
      OwnKept(s, i, s', k);
      SleepKept(s, i, s', k);
    }
    OneOwnerKept(s, i, s');
    SpinHolder(s, i, s');
  }

  lemma OwnerLocks(s: State, k: nat)
    requires Shape(s) && k < NPROC && SpinOk(s, k)
    ensures Owns(s.procs[k].pc) ==> s.locked
  {
  }

  lemma SpinHolder(s: State, i: nat, s': State)
    requires Inv(s) && i < NPROC && (Step(s, i, s') || Kill(s, i, s'))
    ensures s'.spin == NOBODY || 0 <= s'.spin < NPROC
  {
  }

  // ---------- runs ----------

  lemma {:induction false} RunKeeps(run: seq<State>, n: nat)
    requires IsRun(run) && n < |run|
    ensures Inv(run[n])
  {
    if n == 0 {
      InitEstablishes(run[0]);
    } else {
      RunKeeps(run, n - 1);
      assert Next(run[n - 1], run[n]);
      StepKeeps(run[n - 1], run[n]);
    }
  }

  /** In every run, a process asleep on the lock has the lock's holder, or a scan still to come, to wake it. */
  lemma NoLostWakeup(run: seq<State>, n: nat, i: nat)
    requires IsRun(run) && n < |run| && i < NPROC
    ensures Shape(run[n])
    ensures (run[n].procs[i].status == Sleeping ==> run[n].procs[i].onChan && (run[n].locked || ScanToCome(run[n], i)))
  {
    RunKeeps(run, n);
    assert SleepOk(run[n], i);
  }

  /** In every run, a free lock that nobody is releasing has no sleepers. */
  lemma FreeLockHasNoSleepers(run: seq<State>, n: nat, i: nat)
    requires IsRun(run) && n < |run| && i < NPROC
    ensures Shape(run[n])
    ensures !run[n].locked && (forall j :: 0 <= j < NPROC ==> !Waking(run[n].procs[j].pc)) ==>
      run[n].procs[i].status != Sleeping
  {
    NoLostWakeup(run, n, i);
  }

  /** In every run, the lock has at most one owner, and is locked while it has one. */
  lemma SleepLockExcludes(run: seq<State>, n: nat, i: nat, k: nat)
    requires IsRun(run) && n < |run| && i < k < NPROC
    ensures Shape(run[n]) && !(run[n].procs[i].pc.Critical? && run[n].procs[k].pc.Critical?)
    ensures run[n].procs[i].pc.Critical? ==> run[n].locked
  {
    RunKeeps(run, n);
    assert SpinOk(run[n], i);
  }

  /** In every run, sleep finds p->lock free: while it holds lk->lk no scan can be looking at the process. */
  lemma OwnLockIsFree(run: seq<State>, n: nat, i: nat)
    requires IsRun(run) && n < |run| && i < NPROC
    ensures Shape(run[n])
    ensures
      var p := run[n].procs[i];
      p.pc.WantOwn? ==> p.lockedBy == NOBODY && run[n].spin == i
  {
    RunKeeps(run, n);
    var s := run[n];
    assert SpinOk(s, i) && OwnOk(s, i);
    var w := s.procs[i].lockedBy;
    assert 0 <= w < NPROC ==> SpinOk(s, w);
  }
}
