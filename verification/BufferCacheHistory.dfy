/**
 What the cache is for, said in terms of the calls alone: the block a handle asked for, the data
 it holds, and the data last stored for a block follow from the list of steps, without buffers,
 evictions or reference counts. In every run over one device the cache agrees with it.
 */
module BufferCacheHistory {

  import opened Params
  import opened BufferCache

  // ---------- what the steps say ----------

  /** The block handle h last asked for, -1 if it never did. */
  function Asked(steps: seq<Step>, h: nat): int {
    if steps == [] then -1
    else
      var last := steps[|steps| - 1];
      if last.Get? && last.h == h then last.blockno else Asked(steps[..|steps| - 1], h)
  }

  /** What was last logged or written for block k, else what the disk had at first. */
  function LastStored(steps: seq<Step>, disk: seq<Data>, k: int): Data
    decreases |steps|
  {
    if steps == [] then (if 0 <= k < |disk| then disk[k] else [])
    else
      var before, last := steps[..|steps| - 1], steps[|steps| - 1];
      if (last.Write? || last.Log?) && Asked(before, last.h) == k then Held(before, disk, last.h)
      else LastStored(before, disk, k)
  }

  /** What handle h has: what it changed its block to, else what bread gave it. */
  function Held(steps: seq<Step>, disk: seq<Data>, h: nat): Data
    decreases |steps|
  {
    if steps == [] then []
    else
      var before, last := steps[..|steps| - 1], steps[|steps| - 1];
      if last.h == h && last.Change? then last.data
      else if last.h == h && last.Fill? then LastStored(before, disk, Asked(before, h))
      else Held(before, disk, h)
  }

  /** What was last written to block k of the disk. */
  function LastWritten(steps: seq<Step>, disk: seq<Data>, k: int): Data
    decreases |steps|
  {
    if steps == [] then (if 0 <= k < |disk| then disk[k] else [])
    else
      var before, last := steps[..|steps| - 1], steps[|steps| - 1];
      if last.Write? && Asked(before, last.h) == k then Held(before, disk, last.h)
      else LastWritten(before, disk, k)
  }

  // ---------- labels, over any devices ----------

  ghost predicate LabelledAsAsked(s: State, steps: seq<Step>, h: nat) {
    h < |s.uses| && !s.uses[h].Idle? ==> s.uses[h].b < |s.bufs| && s.bufs[s.uses[h].b].blockno == Asked(steps, h)
  }

  lemma StepAsked(s: State, step: Step, steps: seq<Step>, h: nat)
    requires Inv(s) && Enabled(s, step) && LabelledAsAsked(s, steps, h)
    ensures LabelledAsAsked(After(s, step), steps + [step], h)
  {
    hide Shape, Locks, Recency, Counted, Unique, ToFront, Stored;
    assert (steps + [step])[..|steps|] == steps;
    StepFrame(s, step);
    var s', b := After(s, step), Target(s, step);
    if h < |s'.uses| && !s'.uses[h].Idle? {
      if step.Get? && step.h == h {
        GetLabels(s, h, step.dev, step.blockno);
      } else {
        assert On(s'.uses[h], s'.uses[h].b);
        NoUsers(s, b);
        SameLabel(s, step, h);
      }
    }
  }

  lemma SameLabel(s: State, step: Step, h: nat)
    requires Inv(s) && Enabled(s, step) && !(step.Get? && step.h == h) && h < |s.uses|
    requires h < |After(s, step).uses| && !After(s, step).uses[h].Idle?
    ensures
      var s' := After(s, step);
      && !s.uses[h].Idle? && s'.uses[h].b == s.uses[h].b < |s.bufs| && |s'.bufs| == |s.bufs|
      && s'.bufs[s.uses[h].b].blockno == s.bufs[s.uses[h].b].blockno
  {
    hide Locks, Recency, Counted, Unique, ToFront, Stored;
    StepFrame(s, step);
    NoUsers(s, Target(s, step));
  }

  /** In every run a handle's buffer carries the number of the block it asked for. */
  lemma {:induction false} RunAsked(run: seq<State>, steps: seq<Step>, n: nat, h: nat)
    requires IsRun(run, steps) && n < |run|
    ensures LabelledAsAsked(run[n], steps[..n], h)
  {
    hide Enabled, After, Inv;
    if n > 0 {
      RunAsked(run, steps, n - 1, h);
      RunKeeps(run, steps, n - 1);
      assert Next(run[n - 1], steps[n - 1], run[n]);
      StepAsked(run[n - 1], steps[n - 1], steps[..n - 1], h);
      assert steps[..n - 1] + [steps[n - 1]] == steps[..n];
    }
  }

  /**
   In every run, bwrite puts what its handle holds on the block it asked for, and no other block;
   nothing else writes to the disk.
   */
  lemma WriteReachesDisk(run: seq<State>, steps: seq<Step>, n: nat)
    requires IsRun(run, steps) && n < |steps|
    ensures
      var s, s', h := run[n], run[n + 1], steps[n].h;
      if steps[n].Write? then
        var k := Asked(steps[..n], h);
        && h < |s.uses| && s.uses[h].Using? && s.uses[h].b < |s.bufs| && 0 <= k < |s.disk|
        && s'.disk == s.disk[k := s.bufs[s.uses[h].b].data] && s'.bufs == s.bufs
      else s'.disk == s.disk
  {
    hide ToFront, Stored;
    RunAsked(run, steps, n, steps[n].h);
    assert Next(run[n], steps[n], run[n + 1]);
  }

  // ---------- contents, over one device ----------

  /** The block map, the disk and what the handles hold are as the steps say. */
  ghost predicate AsSaid(s: State, steps: seq<Step>, disk: seq<Data>)
    requires Shape(s)
  {
    && (forall k :: 0 <= k < |s.disk| ==> s.contents[k] == LastStored(steps, disk, k))
    && (forall k :: 0 <= k < |s.disk| ==> s.disk[k] == LastWritten(steps, disk, k))
    && (forall h :: 0 <= h < |s.uses| && s.uses[h].Using? ==> s.bufs[s.uses[h].b].data == Held(steps, disk, h))
  }

  lemma StepAsSaid(s: State, step: Step, steps: seq<Step>, disk: seq<Data>, d: nat)
    requires Inv(s) && Agrees(s) && OneDevice(s, d) && d != 0 && Enabled(s, step) && Shape(After(s, step))
    requires AsSaid(s, steps, disk) && LabelledAsAsked(s, steps, step.h)
    ensures AsSaid(After(s, step), steps + [step], disk)
  {
    hide Counted, Unique, Locks, Recency, Agrees, OneDevice, After, Enabled, Stored;
    MapAsSaid(s, step, steps, disk);
    forall g | 0 <= g < |After(s, step).uses| && After(s, step).uses[g].Using?
      ensures After(s, step).bufs[After(s, step).uses[g].b].data == Held(steps + [step], disk, g)
    {
      HeldAsSaid(s, step, steps, disk, d, g);
    }
  }

  lemma MapAsSaid(s: State, step: Step, steps: seq<Step>, disk: seq<Data>)
    requires Inv(s) && Enabled(s, step) && AsSaid(s, steps, disk) && LabelledAsAsked(s, steps, step.h)
    ensures
      var s', steps' := After(s, step), steps + [step];
      && |s'.contents| == |s'.disk| == |s.disk|
      && (forall k :: 0 <= k < |s.disk| ==> s'.contents[k] == LastStored(steps', disk, k))
      && (forall k :: 0 <= k < |s.disk| ==> s'.disk[k] == LastWritten(steps', disk, k))
  {
    hide Counted, Unique, Locks, Recency, ToFront, Stored, Chosen;
    assert (steps + [step])[..|steps|] == steps;
  }

  lemma HeldAsSaid(s: State, step: Step, steps: seq<Step>, disk: seq<Data>, d: nat, g: nat)
    requires Inv(s) && Agrees(s) && OneDevice(s, d) && d != 0 && Enabled(s, step) && Shape(After(s, step))
    requires AsSaid(s, steps, disk) && LabelledAsAsked(s, steps, step.h)
    requires g < |After(s, step).uses| && After(s, step).uses[g].Using?
    ensures After(s, step).bufs[After(s, step).uses[g].b].data == Held(steps + [step], disk, g)
  {
    hide Counted, Unique, Locks, Recency, Agrees, ToFront, Stored;
    assert (steps + [step])[..|steps|] == steps;
    var h := step.h;
    if g != h {
      StepFrame(s, step);
      OtherData(s, step, g);
    } else if step.Fill? {
      FillAgrees(s, h, d, s.bufs[s.uses[h].b].blockno);
    }
  }

  /** No step changes the data of another handle. */
  lemma OtherData(s: State, step: Step, g: nat)
    requires Inv(s) && Enabled(s, step) && g != step.h && g < |s.uses| && s.uses[g].Using?
    ensures
      var s', b := After(s, step), s.uses[g].b;
      |s'.uses| == |s.uses| && s'.uses[g] == s.uses[g] && |s'.bufs| == |s.bufs| && s'.bufs[b].data == s.bufs[b].data
  {
    hide Counted, Unique, Recency, ToFront, Stored;
    StepFrame(s, step);
    assert Holds(s.uses[g], s.uses[g].b);
  }

  lemma {:induction false} RunAsSaid(run: seq<State>, steps: seq<Step>, n: nat, d: nat)
    requires IsRun(run, steps) && n < |run| && AllGets(steps, {d}) && d != 0
    ensures Shape(run[n]) && AsSaid(run[n], steps[..n], run[0].disk)
  {
    hide Enabled, After, Agrees, OneDevice, Counted, Unique, Locks, Recency, AsSaid, LabelledAsAsked;
    RunAgrees(run, steps, n, d);
    if n == 0 {
      NothingSaid(run[0]);
      assert steps[..0] == [];
    } else {
      RunAsSaid(run, steps, n - 1, d);
      RunAgrees(run, steps, n - 1, d);
      assert Next(run[n - 1], steps[n - 1], run[n]);
      RunAsked(run, steps, n - 1, steps[n - 1].h);
      StepAsSaid(run[n - 1], steps[n - 1], steps[..n - 1], run[0].disk, d);
      assert steps[..n - 1] + [steps[n - 1]] == steps[..n];
    }
  }

  lemma NothingSaid(s: State)
    requires Init(s)
    ensures AsSaid(s, [], s.disk)
  {
  }

  /** Handle h has the buffer of that block of that device, with that data. */
  ghost predicate Reads(s: State, h: nat, dev: nat, blockno: nat, data: Data) {
    Labelled(s, h, dev, blockno) && s.uses[h].Using? && s.bufs[s.uses[h].b].data == data
  }

  /** In every run over one device, bread of a block returns what was last logged or written for it. */
  lemma BreadReturnsLastStored(run: seq<State>, steps: seq<Step>, i: nat, n: nat, h: nat, dev: nat, blockno: nat)
    requires IsRun(run, steps) && AllGets(steps, {dev}) && IsBread(steps, i, n, h, dev, blockno)
    ensures Reads(run[n + 1], h, dev, blockno, LastStored(steps[..n], run[0].disk, blockno))
  {
    hide Init, Shape, Enabled, After;
    GetsDevice(run, steps, i);
    BreadAgrees(run, steps, i, n, h, dev, blockno);
    RunAsSaid(run, steps, n + 1, dev);
    assert steps[..n + 1][..n] == steps[..n];
    assert LastStored(steps[..n + 1], run[0].disk, blockno) == LastStored(steps[..n], run[0].disk, blockno);
  }

  /** In every run over one device, the disk holds what was last written, block by block. */
  lemma DiskHoldsLastWritten(run: seq<State>, steps: seq<Step>, n: nat, d: nat, k: nat)
    requires IsRun(run, steps) && n < |run| && AllGets(steps, {d}) && d != 0 && k < |run[n].disk|
    ensures run[n].disk[k] == LastWritten(steps[..n], run[0].disk, k)
  {
    RunAsSaid(run, steps, n, d);
  }

  // ---------- what was stored can be read back ----------

  lemma ReachedUse(run: seq<State>, steps: seq<Step>, s: State, h: nat)
    requires Reaches(run, steps, s) && h < |s.uses| && !s.uses[h].Idle?
    ensures
      var b := s.uses[h].b;
      && Inv(s) && Sized(s) && b < NBUF && s.bufs[b].dev != 0 && s.bufs[b].blockno < |s.disk| && s.bufs[b].refcnt > 0
      && (s.uses[h].Using? ==> s.bufs[b].valid)
  {
    RunKeeps(run, steps, |steps|);
    UsersPositive(s.uses, h, s.uses[h].b);
  }

  /** After the steps of a handle that changes its block, writes or logs it, and lets go of it. */
  lemma LetsGo(run: seq<State>, steps: seq<Step>, s: State, h: nat, data: Data, log: bool)
    returns (run': seq<State>, s': State)
    requires Reaches(run, steps, s) && h < |s.uses| && s.uses[h].Using?
    ensures
      var store := if log then Log(h, true) else Write(h);
      Reaches(run', steps + [Change(h, data)] + [store] + [Unlock(h)] + [Drop(h)], s')
    ensures |s'.uses| == |s.uses| && s'.uses[h].Idle?
    ensures
      var b := s.uses[h].b;
      && b < |s.bufs| == |s'.bufs| && s'.bufs[b].dev == s.bufs[b].dev && s'.bufs[b].blockno == s.bufs[b].blockno
      && !s'.bufs[b].locked && s'.bufs[b].valid && s'.bufs[b].data == data
  {
    hide Init, IsRun, Counted, Unique, Recency, ToFront, Shape;
    ReachedUse(run, steps, s, h);
    var store, b := if log then Log(h, true) else Write(h), s.uses[h].b;
    var s1 := After(s, Change(h, data));
    Extend(run, steps, s, Change(h, data));
    var s2 := After(s1, store);
    Extend(run + [s1], steps + [Change(h, data)], s1, store);
    var s3 := After(s2, Unlock(h));
    Extend(run + [s1] + [s2], steps + [Change(h, data)] + [store], s2, Unlock(h));
    s' := After(s3, Drop(h));
    Extend(run + [s1] + [s2] + [s3], steps + [Change(h, data)] + [store] + [Unlock(h)], s3, Drop(h));
    run' := run + [s1] + [s2] + [s3] + [s'];
  }

  /** A cached block that nobody has locked is got as it is. */
  lemma GetsBack(run: seq<State>, steps: seq<Step>, s: State, h: nat, b: nat)
    returns (run': seq<State>, s': State)
    requires Reaches(run, steps, s) && h < |s.uses| && s.uses[h].Idle? && b < |s.bufs|
    requires s.bufs[b].dev != 0 && !s.bufs[b].locked && s.bufs[b].valid
    ensures
      var buf := s.bufs[b];
      && Reaches(run', steps + [Get(h, buf.dev, buf.blockno)] + [Lock(h)] + [Fill(h)], s')
      && Reads(s', h, buf.dev, buf.blockno, buf.data)
  {
    hide Init, IsRun, Counted, Unique, Recency, ToFront, Locks;
    var buf := s.bufs[b];
    FoundAgain(run, steps, s, b);
    var s1 := After(s, Get(h, buf.dev, buf.blockno));
    Extend(run, steps, s, Get(h, buf.dev, buf.blockno));
    hide Shape;
    var s2 := After(s1, Lock(h));
    Extend(run + [s1], steps + [Get(h, buf.dev, buf.blockno)], s1, Lock(h));
    s' := After(s2, Fill(h));
    Extend(run + [s1] + [s2], steps + [Get(h, buf.dev, buf.blockno)] + [Lock(h)], s2, Fill(h));
    run' := run + [s1] + [s2] + [s'];
  }

  lemma FoundAgain(run: seq<State>, steps: seq<Step>, s: State, b: nat)
    requires Reaches(run, steps, s) && b < |s.bufs| && s.bufs[b].dev != 0
    ensures Chosen(s.bufs, s.order, s.bufs[b].dev, s.bufs[b].blockno) == b && s.bufs[b].blockno < |s.disk|
  {
    RunKeeps(run, steps, |steps|);
    assert b in s.order;
    var c := Cached(s.bufs, s.order, s.bufs[b].dev, s.bufs[b].blockno);
    assert c in s.order;
  }

  /**
   From every reachable state in which a handle has read a block, the cache lets it store any data,
   by bwrite or through the log, release the buffer, ask for the block again and read them.
   */
  lemma StoredIsReadBack(run: seq<State>, steps: seq<Step>, s: State, h: nat, data: Data, log: bool)
    returns (run': seq<State>, s': State)
    requires Reaches(run, steps, s) && h < |s.uses| && s.uses[h].Using? && s.uses[h].b < |s.bufs|
    ensures
      var buf := s.bufs[s.uses[h].b];
      var store := if log then Log(h, true) else Write(h);
      && Reaches(run', steps + [Change(h, data)] + [store] + [Unlock(h)] + [Drop(h)]
                       + [Get(h, buf.dev, buf.blockno)] + [Lock(h)] + [Fill(h)], s')
      && Reads(s', h, buf.dev, buf.blockno, data)
  {
    hide Init, IsRun, Shape;
    var b, store := s.uses[h].b, if log then Log(h, true) else Write(h);
    ReachedUse(run, steps, s, h);
    var s1;
    run', s1 := LetsGo(run, steps, s, h, data, log);
    run', s' := GetsBack(run', steps + [Change(h, data)] + [store] + [Unlock(h)] + [Drop(h)], s1, h, b);
  }

  // ---------- more than one device ----------

  /** In every run over these devices bread returns what was last stored. */
  ghost predicate ReadsLastStored(devices: set<nat>) {
    forall run: seq<State>, steps: seq<Step>, i: nat, n: nat, h: nat, dev: nat, blockno: nat
      | IsRun(run, steps) && AllGets(steps, devices) && IsBread(steps, i, n, h, dev, blockno) ::
      Reads(run[n + 1], h, dev, blockno, LastStored(steps[..n], run[0].disk, blockno))
  }

  lemma LoggedLast(steps: seq<Step>, disk: seq<Data>, d: nat, e: nat)
    requires steps == [Get(0, d, 0), Lock(0), Fill(0), Change(0, [1]), Log(0, true), Get(1, e, 0), Lock(1)]
    ensures LastStored(steps, disk, 0) == [1]
  {
    var t1, t4 := [Get(0, d, 0)], [Get(0, d, 0), Lock(0), Fill(0), Change(0, [1])];
    assert t4[..3] == [Get(0, d, 0), Lock(0), Fill(0)] && t4[..3][..2] == [Get(0, d, 0), Lock(0)];
    assert t4[..3][..2][..1] == t1 && Asked(t1, 0) == 0;
    assert Asked(t4, 0) == Asked(t4[..3], 0) == Asked(t4[..3][..2], 0) == 0;
    var t5 := t4 + [Log(0, true)];
    assert t5[..4] == t4 && LastStored(t5, disk, 0) == Held(t4, disk, 0) == [1];
    assert steps[..6] == t5 + [Get(1, e, 0)] && steps[..6][..5] == t5;
    assert LastStored(steps, disk, 0) == LastStored(steps[..6], disk, 0) == LastStored(t5, disk, 0);
  }

  lemma NotRead(s: State)
    requires 1 < |s.uses| && s.uses[1].Using? && s.uses[1].b < |s.bufs| && s.bufs[s.uses[1].b].data == []
    ensures forall dev: nat :: !Reads(s, 1, dev, 0, [1])
  {
  }

  /** That is so exactly if they are one device at most, besides the label 0 that no call may use. */
  lemma LastStoredIffOneDevice(devices: set<nat>)
    ensures ReadsLastStored(devices) <==> forall d, e :: d in devices && e in devices && d != 0 && e != 0 ==> d == e
  {
    hide Init, Next, Reads;
    if d, e :| d in devices && e in devices && d != 0 && e != 0 && d != e {
      var run, steps := StaleRun(d, e);
      assert AllGets(steps, devices) && IsBread(steps, 5, 7, 1, e, 0);
      LoggedLast(steps[..7], run[0].disk, d, e);
      assert !Reads(run[8], 1, e, 0, [1]) by { NotRead(run[8]); }
    } else {
      forall run: seq<State>, steps: seq<Step>, i: nat, n: nat, h: nat, dev: nat, blockno: nat
        | IsRun(run, steps) && AllGets(steps, devices) && IsBread(steps, i, n, h, dev, blockno)
        ensures Reads(run[n + 1], h, dev, blockno, LastStored(steps[..n], run[0].disk, blockno))
      {
        forall j | 0 <= j < |steps| && steps[j].Get? ensures steps[j].dev == dev {
          GetsDevice(run, steps, i);
          GetsDevice(run, steps, j);
        }
        BreadReturnsLastStored(run, steps, i, n, h, dev, blockno);
      }
    }
  }

  // ---------- references, over any devices ----------

  /** The device handle h last asked for, 0 if it never did. */
  function AskedDevice(steps: seq<Step>, h: nat): nat {
    if steps == [] then 0
    else
      var last := steps[|steps| - 1];
      if last.Get? && last.h == h then last.dev else AskedDevice(steps[..|steps| - 1], h)
  }

  /** bpin less bunpin for a block. */
  function Pinned(steps: seq<Step>, dev: nat, k: nat): int {
    if steps == [] then 0
    else
      var before, last := steps[..|steps| - 1], steps[|steps| - 1];
      var on := AskedDevice(before, last.h) == dev && Asked(before, last.h) == k;
      Pinned(before, dev, k) + if on && last.Log? && last.pin then 1 else if on && last.Unpin? then -1 else 0
  }

  ghost predicate DeviceAsAsked(s: State, steps: seq<Step>, h: nat) {
    h < |s.uses| && !s.uses[h].Idle? ==> s.uses[h].b < |s.bufs| && s.bufs[s.uses[h].b].dev == AskedDevice(steps, h)
  }

  lemma {:induction false} RunDevice(run: seq<State>, steps: seq<Step>, n: nat, h: nat)
    requires IsRun(run, steps) && n < |run|
    ensures DeviceAsAsked(run[n], steps[..n], h)
  {
    hide Enabled, After, Inv;
    if n > 0 {
      var s, step := run[n - 1], steps[n - 1];
      RunDevice(run, steps, n - 1, h);
      RunKeeps(run, steps, n - 1);
      assert Next(s, step, run[n]);
      assert steps[..n][..n - 1] == steps[..n - 1];
      if h < |run[n].uses| && !run[n].uses[h].Idle? {
        if step.Get? && step.h == h {
          GetLabels(s, h, step.dev, step.blockno);
        } else {
          SameDevice(s, step, h);
        }
      }
    }
  }

  lemma SameDevice(s: State, step: Step, h: nat)
    requires Inv(s) && Enabled(s, step) && !(step.Get? && step.h == h)
    requires h < |After(s, step).uses| && !After(s, step).uses[h].Idle?
    ensures
      var s' := After(s, step);
      && h < |s.uses| && !s.uses[h].Idle? && s'.uses[h].b == s.uses[h].b < |s.bufs| && |s'.bufs| == |s.bufs|
      && s'.bufs[s.uses[h].b].dev == s.bufs[s.uses[h].b].dev
  {
    hide Locks, Recency, Counted, Unique, ToFront, Stored;
    StepFrame(s, step);
    NoUsers(s, Target(s, step));
  }

  ghost predicate HasBuffer(s: State, dev: nat, k: nat) {
    exists b :: 0 <= b < |s.bufs| && s.bufs[b].dev == dev && s.bufs[b].blockno == k
  }

  /** Pins are those the steps say, and a block without a buffer has none. */
  ghost predicate PinsAsSaid(s: State, steps: seq<Step>)
    requires Shape(s)
  {
    && (forall b :: 0 <= b < NBUF && s.bufs[b].dev != 0 ==>
          s.pins[b] == Pinned(steps, s.bufs[b].dev, s.bufs[b].blockno))
    && (forall dev: nat, k: nat :: dev != 0 && !HasBuffer(s, dev, k) ==> Pinned(steps, dev, k) == 0)
  }

  /** The label that a step's handle is on, and what the step says about pins. */
  lemma PinsSaid(s: State, step: Step, steps: seq<Step>, dev: nat, k: nat)
    requires Inv(s) && Enabled(s, step) && LabelledAsAsked(s, steps, step.h) && DeviceAsAsked(s, steps, step.h)
    ensures
      var buf := s.bufs[Target(s, step)];
      var on := !step.Get? && buf.dev == dev && buf.blockno == k;
      Pinned(steps + [step], dev, k) ==
        Pinned(steps, dev, k) + if on && step.Log? && step.pin then 1 else if on && step.Unpin? then -1 else 0
  {
    hide Counted, Unique, Locks, Recency, ToFront, Stored;
    assert (steps + [step])[..|steps|] == steps;
  }

  lemma BufferPins(s: State, step: Step, steps: seq<Step>, c: nat)
    requires Inv(s) && Enabled(s, step) && Shape(After(s, step)) && PinsAsSaid(s, steps)
    requires LabelledAsAsked(s, steps, step.h) && DeviceAsAsked(s, steps, step.h)
    requires c < NBUF && After(s, step).bufs[c].dev != 0
    ensures
      var s' := After(s, step);
      s'.pins[c] == Pinned(steps + [step], s'.bufs[c].dev, s'.bufs[c].blockno)
  {
    hide Counted, Locks, Recency, ToFront, Stored;
    var s', b := After(s, step), Target(s, step);
    PinsSaid(s, step, steps, s'.bufs[c].dev, s'.bufs[c].blockno);
    StepFrame(s, step);
    if step.Get? && c == b {
      NoUsers(s, b);
      if !(s.bufs[b].dev == step.dev && s.bufs[b].blockno == step.blockno) {
        NotCached(s, step.dev, step.blockno);
      }
    }
  }

  lemma NotCached(s: State, dev: nat, k: nat)
    requires Shape(s) && Cached(s.bufs, s.order, dev, k) == -1
    ensures !HasBuffer(s, dev, k)
  {
    forall b | 0 <= b < NBUF ensures !(s.bufs[b].dev == dev && s.bufs[b].blockno == k) {
      assert b in s.order;
    }
  }

  lemma AbsentPins(s: State, step: Step, steps: seq<Step>, dev: nat, k: nat)
    requires Inv(s) && Enabled(s, step) && Shape(After(s, step)) && PinsAsSaid(s, steps)
    requires LabelledAsAsked(s, steps, step.h) && DeviceAsAsked(s, steps, step.h)
    requires dev != 0 && !HasBuffer(After(s, step), dev, k)
    ensures Pinned(steps + [step], dev, k) == 0
  {
    hide Inv, After, Enabled, Pinned;
    PinsSaid(s, step, steps, dev, k);
    if HasBuffer(s, dev, k) {
      var c :| 0 <= c < |s.bufs| && s.bufs[c].dev == dev && s.bufs[c].blockno == k;
      LabelsStay(s, step, c);
      assert After(s, step).bufs[c].dev != dev || After(s, step).bufs[c].blockno != k;
    } else {
      var b := Target(s, step);
      assert s.bufs[b].dev != dev || s.bufs[b].blockno != k;
    }
  }

  /** Only bget gives a buffer another label, and only if nobody refers to it. */
  lemma LabelsStay(s: State, step: Step, c: nat)
    requires Inv(s) && Enabled(s, step) && c < NBUF
    ensures
      var s' := After(s, step);
      && |s'.bufs| == NBUF
      && ((s'.bufs[c].dev == s.bufs[c].dev && s'.bufs[c].blockno == s.bufs[c].blockno) || (step.Get? && s.pins[c] == 0))
  {
    hide Unique, Locks, Recency, ToFront, Stored;
    StepFrame(s, step);
    NoUsers(s, Target(s, step));
  }

  lemma {:induction false} RunPins(run: seq<State>, steps: seq<Step>, n: nat)
    requires IsRun(run, steps) && n < |run|
    ensures Shape(run[n]) && PinsAsSaid(run[n], steps[..n])
  {
    hide Enabled, After, Counted, Unique, Locks, Recency, LabelledAsAsked, DeviceAsAsked, HasBuffer, Pinned;
    RunKeeps(run, steps, n);
    if n == 0 {
      NonePinned(run[0]);
      assert steps[..0] == [];
    } else {
      var s, step, before := run[n - 1], steps[n - 1], steps[..n - 1];
      RunPins(run, steps, n - 1);
      RunKeeps(run, steps, n - 1);
      RunAsked(run, steps, n - 1, step.h);
      RunDevice(run, steps, n - 1, step.h);
      assert Next(s, step, run[n]);
      assert before + [step] == steps[..n];
      forall b | 0 <= b < NBUF && run[n].bufs[b].dev != 0
        ensures run[n].pins[b] == Pinned(steps[..n], run[n].bufs[b].dev, run[n].bufs[b].blockno)
      {
        BufferPins(s, step, before, b);
      }
      forall dev: nat, k: nat | dev != 0 && !HasBuffer(run[n], dev, k) ensures Pinned(steps[..n], dev, k) == 0 {
        AbsentPins(s, step, before, dev, k);
      }
    }
  }

  lemma NonePinned(s: State)
    requires Init(s)
    ensures PinsAsSaid(s, [])
  {
  }

  /** In every run a buffer's references are its handles and bpin less bunpin for its block. */
  lemma RefcntAsSaid(run: seq<State>, steps: seq<Step>, n: nat, b: nat)
    requires IsRun(run, steps) && n < |run| && b < NBUF && b < |run[n].bufs| && run[n].bufs[b].dev != 0
    ensures
      var s := run[n];
      s.bufs[b].refcnt == Users(s.uses, b) + Pinned(steps[..n], s.bufs[b].dev, s.bufs[b].blockno)
  {
    RunPins(run, steps, n);
    RunKeeps(run, steps, n);
  }

  // ---------- releases, over any devices ----------

  function Drops(steps: seq<Step>): nat {
    if steps == [] then 0 else Drops(steps[..|steps| - 1]) + Count(steps[|steps| - 1].Drop?)
  }

  /** The last step by which brelse let go of the block, -1 if there is none. */
  function LastRelease(steps: seq<Step>, dev: nat, k: nat): (i: int)
    ensures -1 <= i < |steps|
  {
    if steps == [] then -1
    else
      var before, last := steps[..|steps| - 1], steps[|steps| - 1];
      if last.Drop? && AskedDevice(before, last.h) == dev && Asked(before, last.h) == k then |steps| - 1
      else LastRelease(before, dev, k)
  }

  /** Unreferenced buffers were released when the steps say, or never. */
  ghost predicate ReleasedAsSaid(s: State, steps: seq<Step>, b: nat)
    requires Shape(s) && b < NBUF
  {
    && (s.bufs[b].dev == 0 ==> s.released[b] < NBUF)
    && (s.bufs[b].dev != 0 && s.bufs[b].refcnt == 0 ==>
          var i := LastRelease(steps, s.bufs[b].dev, s.bufs[b].blockno);
          i >= 0 && s.released[b] == NBUF + Drops(steps[..i]))
  }

  lemma StepReleased(s: State, step: Step, steps: seq<Step>, b: nat)
    requires Inv(s) && Enabled(s, step) && Shape(After(s, step)) && b < NBUF && ReleasedAsSaid(s, steps, b)
    requires LabelledAsAsked(s, steps, step.h) && DeviceAsAsked(s, steps, step.h) && s.clock == NBUF + Drops(steps)
    ensures ReleasedAsSaid(After(s, step), steps + [step], b) && After(s, step).clock == NBUF + Drops(steps + [step])
  {
    hide Locks, Recency, ToFront, Stored;
    var s', t := After(s, step), Target(s, step);
    assert (steps + [step])[..|steps|] == steps;
    StepFrame(s, step);
    LabelsStay(s, step, b);
    if step.Unpin? {
      HeldAndPinned(s, step.h);
    }
    if s'.bufs[b].dev != 0 && s'.bufs[b].refcnt == 0 {
      var i := LastRelease(steps, s.bufs[b].dev, s.bufs[b].blockno);
      assert i >= 0 ==> (steps + [step])[..i] == steps[..i];
    }
  }

  lemma {:induction false} RunReleased(run: seq<State>, steps: seq<Step>, n: nat, b: nat)
    requires IsRun(run, steps) && n < |run| && b < NBUF
    ensures Shape(run[n]) && ReleasedAsSaid(run[n], steps[..n], b) && run[n].clock == NBUF + Drops(steps[..n])
  {
    hide Enabled, After, Counted, Unique, Locks, Recency, LabelledAsAsked, DeviceAsAsked;
    RunKeeps(run, steps, n);
    if n > 0 {
      var s, step, before := run[n - 1], steps[n - 1], steps[..n - 1];
      hide ReleasedAsSaid;
      RunReleased(run, steps, n - 1, b);
      RunKeeps(run, steps, n - 1);
      RunAsked(run, steps, n - 1, step.h);
      RunDevice(run, steps, n - 1, step.h);
      assert Next(s, step, run[n]);
      assert before + [step] == steps[..n];
      StepReleased(s, step, before, b);
    }
  }

  lemma {:induction false} DropsGrow(steps: seq<Step>, i: nat, j: nat)
    requires i < j <= |steps| && steps[i].Drop?
    ensures Drops(steps[..i]) < Drops(steps[..j])
    decreases j
  {
    assert steps[..j][..j - 1] == steps[..j - 1];
    if i < j - 1 {
      DropsGrow(steps, i, j - 1);
    }
  }

  lemma {:induction false} ReleasedByDrop(steps: seq<Step>, dev: nat, k: nat)
    ensures LastRelease(steps, dev, k) >= 0 ==> steps[LastRelease(steps, dev, k)].Drop?
  {
    if steps != [] {
      ReleasedByDrop(steps[..|steps| - 1], dev, k);
    }
  }

  /**
   In every run, the buffer that bget would recycle was never used, or brelse let go of its block no
   later than of any other block whose buffer nobody refers to.
   */
  lemma VictimReleasedFirst(run: seq<State>, steps: seq<Step>, n: nat, c: nat)
    requires IsRun(run, steps) && n < |run| && c < NBUF && c < |run[n].bufs| && run[n].bufs[c].refcnt == 0
    ensures
      var s := run[n];
      && Shape(s)
      && var v := Victim(s.bufs, s.order);
      && v != -1 && s.bufs[v].refcnt == 0
      && (s.bufs[v].dev != 0 ==>
            && s.bufs[c].dev != 0
            && 0 <= LastRelease(steps[..n], s.bufs[v].dev, s.bufs[v].blockno)
                 <= LastRelease(steps[..n], s.bufs[c].dev, s.bufs[c].blockno))
  {
    hide Init, Next, LastRelease;
    LeastRecentlyReleased(run, steps, n, c);
    var s, t := run[n], steps[..n];
    var v := Victim(s.bufs, s.order);
    assert v in s.order;
    RunReleased(run, steps, n, v);
    RunReleased(run, steps, n, c);
    if s.bufs[v].dev != 0 && s.bufs[c].dev != 0 {
      var i, j := LastRelease(t, s.bufs[v].dev, s.bufs[v].blockno), LastRelease(t, s.bufs[c].dev, s.bufs[c].blockno);
      ReleasedByDrop(t, s.bufs[c].dev, s.bufs[c].blockno);
      if j < i {
        DropsGrow(t, j, i);
      }
    }
  }
}
