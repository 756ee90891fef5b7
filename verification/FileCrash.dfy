/**
 File writes on a disk with a redo log: what a crash at any block write leaves of any number of
 write system calls. The transactions of the calls, in the order in which they ran, are committed
 in groups; recovery yields a sound file system that has the effect of exactly the transactions
 in the durable groups. For a single call that is a whole number of its chunks.
 */
module FileCrash {
  import opened Params
  import opened InodeSpec
  import opened InodeWrites
  import opened InodeCode
  import opened DiskImage
  import opened CrashHistory
  import R = RedoLog
  import A = LogAdmission

  // ---------- sequences of transactions ----------

  /** The file system after the first m transactions. */
  function After(fs: Fs, txns: seq<Transaction>, m: nat): Fs
    requires m <= |txns|
  {
    if m == 0 then fs else txns[m - 1].after
  }

  /** The transactions carry all they changed. */
  ghost predicate AllCovered(k: FileSystem, txns: seq<Transaction>) {
    forall j :: 0 <= j < |txns| ==> k.Covers(txns[j]) && txns[j].loose == {}
  }

  /** All that the transactions logged. */
  function Logged(txns: seq<Transaction>): set<nat> {
    if txns == [] then {} else Logged(txns[..|txns| - 1]) + txns[|txns| - 1].blocks
  }

  lemma {:induction false} LoggedHas(txns: seq<Transaction>, b: nat)
    ensures b in Logged(txns) <==> exists j :: 0 <= j < |txns| && b in txns[j].blocks
  {
    if txns != [] {
      var n := |txns| - 1;
      LoggedHas(txns[..n], b);
      if j :| 0 <= j < n && b in txns[..n][j].blocks {
        assert b in txns[j].blocks;
      }
      if j :| 0 <= j < |txns| && b in txns[j].blocks {
        assert j < n ==> b in txns[..n][j].blocks;
      }
    }
  }

  /** A block that none of them logged looks the same before and after. */
  lemma {:induction false} GroupSame(k: FileSystem, fs: Fs, txns: seq<Transaction>, b: nat)
    requires Chain(fs, txns) && AllCovered(k, txns) && k.inodestart <= b && b !in Logged(txns)
    ensures |After(fs, txns, |txns|).data| == |fs.data| && Image(k, After(fs, txns, |txns|), b) == Image(k, fs, b)
  {
    hide Image, FileSystem.Covers;
    if txns != [] {
      var n := |txns| - 1;
      GroupSame(k, fs, txns[..n], b);
      UnloggedSame(k, txns[n], b);
    }
  }

  lemma {:induction false} SameSize(k: FileSystem, fs: Fs, txns: seq<Transaction>)
    requires Chain(fs, txns) && AllCovered(k, txns)
    ensures |After(fs, txns, |txns|).data| == |fs.data| && |After(fs, txns, |txns|).inodes| == |fs.inodes|
    ensures After(fs, txns, |txns|).meta == fs.meta && |After(fs, txns, |txns|).used| == |fs.used|
  {
    if txns != [] {
      SameSize(k, fs, txns[..|txns| - 1]);
    }
  }

  // ---------- one commit ----------

  /** The log transaction t has all these blocks, each as it is in fs. */
  ghost predicate Carries(k: FileSystem, t: R.Txn, blocks: set<nat>, fs: Fs) {
    && |t.data| == |t.blocks| && (forall b: nat :: b in blocks ==> b in t.blocks)
    && forall j :: 0 <= j < |t.blocks| ==> t.blocks[j] >= k.inodestart && t.data[j] == Image(k, fs, t.blocks[j])
  }

  /** Written straight to the home blocks, a group takes the disk from the file system before to the one after it. */
  lemma CarriedOver(k: FileSystem, y: R.Layout, d: R.Disk, t: R.Txn, fs: Fs, txns: seq<Transaction>)
    requires OnDisk(k, y, d, fs) && Chain(fs, txns) && AllCovered(k, txns) && y.Loggable(d, t.blocks)
    requires Carries(k, t, Logged(txns), After(fs, txns, |txns|))
    ensures OnDisk(k, y, R.Apply(d, R.Puts(t.blocks, t.data)), After(fs, txns, |txns|))
  {
    hide Image, FileSystem.Covers, R.Apply;
    var n, fs' := |t.blocks|, After(fs, txns, |txns|);
    assert R.Puts(t.blocks, t.data)[..n] == R.Puts(t.blocks, t.data);
    R.ApplyPuts(d, t.blocks, t.data, n);
    SameSize(k, fs, txns);
    forall b: nat | k.inodestart <= b < |d| && !y.Inside(b)
      ensures R.Apply(d, R.Puts(t.blocks, t.data))[b] == Image(k, fs', b)
    {
      if R.Listed(t.blocks, n, b) {
        var j :| 0 <= j < n && t.blocks[j] == b;
      } else {
        GroupSame(k, fs, txns, b);
      }
    }
  }

  lemma {:induction false} ListOf(blocks: set<nat>) returns (list: seq<int>)
    ensures |list| == |blocks| && R.Distinct(list) && forall b: int :: b in list <==> b >= 0 && b in blocks
  {
    if blocks == {} {
      list := [];
    } else {
      var b :| b in blocks;
      var rest := ListOf(blocks - {b});
      list := rest + [b];
    }
  }

  /** Blocks behind the log that fit into it can be committed, whatever they are to hold. */
  lemma CanCarry(k: FileSystem, y: R.Layout, d: R.Disk, blocks: set<nat>, fs: Fs) returns (t: R.Txn)
    requires y.start + y.size <= k.inodestart && forall b :: b in blocks ==> k.inodestart <= b < |d|
    requires |blocks| <= LOGSIZE && |blocks| < y.size
    ensures Carries(k, t, blocks, fs) && y.Loggable(d, t.blocks) && forall b: nat :: b in t.blocks <==> b in blocks
  {
    hide Image;
    var list := ListOf(blocks);
    forall j | 0 <= j < |list| ensures list[j] >= 0 && list[j] in blocks {
      assert list[j] in list;
    }
    t := R.Txn(list, seq(|list|, j requires 0 <= j < |list| => Image(k, fs, list[j])));
  }

  /** Every transaction of a write call can be committed to a log of more than MAXOPBLOCKS blocks. */
  lemma ChunkCanCommit(k: FileSystem, y: R.Layout, d: R.Disk, x: Transaction) returns (t: R.Txn)
    requires k.Fits(x) && LaidOut(k, y, x.before) && |d| == |x.before.data| && y.size > MAXOPBLOCKS
    ensures Carries(k, t, x.blocks, x.after) && y.Loggable(d, t.blocks)
  {
    hide Image, FileSystem.Covers;
    t := CanCarry(k, y, d, x.blocks, x.after);
  }

  // ---------- group commits ----------

  /** The transactions of the operations that commit number e of the log's admission protocol carries. */
  ghost predicate IsGroup(s: A.State, e: nat, ops: seq<nat>, txns: seq<Transaction>) {
    && |ops| == |txns|
    && (forall j :: 0 <= j < |ops| ==> ops[j] < |s.ops| && s.ops[ops[j]].epoch == e)
    && (forall j :: 0 <= j < |ops| ==> forall b: int :: b in s.ops[ops[j]].wrote <==> b >= 0 && b in txns[j].blocks)
    && (forall o: nat :: o < |s.ops| && s.ops[o].epoch == e && s.ops[o].wrote != {} ==> o in ops)
  }

  /** A group commit carries exactly what its operations logged. */
  lemma GroupIsCommit(size: int, run: seq<A.State>, steps: seq<A.Step>, n: nat, e: nat, ops: seq<nat>,
                      txns: seq<Transaction>)
    requires A.IsRun(size, run, steps) && n <= |steps| && e < |run[n].commits| && IsGroup(run[n], e, ops, txns)
    ensures forall b: int :: b in run[n].commits[e] <==> b >= 0 && b in Logged(txns)
    ensures |Logged(txns)| <= A.Capacity(size)
  {
    hide A.SpaceInv;
    var s := run[n];
    A.RunKeeps(size, run, steps, n);
    assert A.CommitExact(s, e);
    forall b: int ensures b in s.commits[e] <==> b >= 0 && b in Logged(txns) {
      GroupBlock(s, e, ops, txns, b);
    }
    SubsetSize(Logged(txns), s.commits[e]);
  }

  lemma GroupBlock(s: A.State, e: nat, ops: seq<nat>, txns: seq<Transaction>, b: int)
    requires IsGroup(s, e, ops, txns)
    ensures A.WrittenIn(s.ops, e, b) <==> b >= 0 && b in Logged(txns)
  {
    if b >= 0 {
      LoggedHas(txns, b);
      if j :| 0 <= j < |txns| && b in txns[j].blocks {
        assert b in s.ops[ops[j]].wrote;
      }
    }
    if A.WrittenIn(s.ops, e, b) {
      var o :| 0 <= o < |s.ops| && s.ops[o].epoch == e && b in s.ops[o].wrote;
      assert o in ops;
      var j :| 0 <= j < |ops| && ops[j] == o;
    }
  }

  lemma {:induction false} SubsetSize(a: set<nat>, b: set<int>)
    requires forall x :: x in a ==> x in b
    ensures |a| <= |b|
  {
    if a != {} {
      var x :| x in a;
      SubsetSize(a - {x}, b - {x});
    }
  }

  /** So every group that was admitted to a log of y.size blocks can be committed to it. */
  lemma GroupCanCommit(k: FileSystem, y: R.Layout, d: R.Disk, run: seq<A.State>, steps: seq<A.Step>, n: nat, e: nat,
                       ops: seq<nat>, fs: Fs, txns: seq<Transaction>)
    returns (t: R.Txn)
    requires A.IsRun(y.size, run, steps) && n <= |steps| && e < |run[n].commits| && IsGroup(run[n], e, ops, txns)
    requires y.size > 0 && LaidOut(k, y, fs) && |d| == |fs.data| && Chain(fs, txns) && AllCovered(k, txns)
    requires forall j :: 0 <= j < |txns| ==> k.Fits(txns[j])
    ensures Carries(k, t, Logged(txns), After(fs, txns, |txns|)) && y.Loggable(d, t.blocks)
    ensures forall b: int :: b in t.blocks ==> b in run[n].commits[e]
  {
    hide Image, A.IsRun, FileSystem.Covers, FileSystem.Fits, IsGroup, FileSystem.Areas;
    GroupIsCommit(y.size, run, steps, n, e, ops, txns);
    GroupInAreas(k, fs, txns);
    t := CanCarry(k, y, d, Logged(txns), After(fs, txns, |txns|));
  }

  lemma {:induction false} GroupInAreas(k: FileSystem, fs: Fs, txns: seq<Transaction>)
    requires k.Areas(fs) && Chain(fs, txns) && AllCovered(k, txns)
    requires forall j :: 0 <= j < |txns| ==> k.Fits(txns[j])
    ensures k.InAreas(fs, Logged(txns))
  {
    hide FileSystem.Covers;
    if txns != [] {
      var n := |txns| - 1;
      GroupInAreas(k, fs, txns[..n]);
      SameSize(k, fs, txns[..n]);
    }
  }

  // ---------- whole histories ----------

  /** ts[j] carries the group of transactions ends[j] .. ends[j + 1] - 1. */
  ghost predicate CarriesGroups(k: FileSystem, ts: seq<R.Txn>, fs: Fs, txns: seq<Transaction>, ends: seq<nat>) {
    && |ends| == |ts| + 1 && ends[0] == 0 && (forall j :: 0 <= j < |ends| ==> ends[j] <= |txns|)
    && forall j, m :: 0 <= j < |ts| && m == j + 1 ==>
         ends[j] <= ends[m] && Carries(k, ts[j], Logged(txns[ends[j]..ends[m]]), After(fs, txns, ends[m]))
  }

  ghost predicate AllLoggable(y: R.Layout, d: R.Disk, ts: seq<R.Txn>) {
    forall j :: 0 <= j < |ts| ==> y.Loggable(d, ts[j].blocks) && |ts[j].data| == |ts[j].blocks|
  }

  lemma GroupOf(k: FileSystem, fs: Fs, txns: seq<Transaction>, a: nat, b: nat)
    requires Chain(fs, txns) && AllCovered(k, txns) && a <= b <= |txns|
    ensures Chain(After(fs, txns, a), txns[a..b]) && AllCovered(k, txns[a..b])
    ensures After(After(fs, txns, a), txns[a..b], b - a) == After(fs, txns, b)
  {
    hide FileSystem.Covers;
  }

  lemma {:induction false} IdealOnDisk(k: FileSystem, y: R.Layout, d: R.Disk, fs: Fs, txns: seq<Transaction>,
                                       ts: seq<R.Txn>, ends: seq<nat>)
    requires OnDisk(k, y, d, fs) && Chain(fs, txns) && AllCovered(k, txns) && AllLoggable(y, d, ts)
    requires CarriesGroups(k, ts, fs, txns, ends)
    ensures Sized(ts) && OnDisk(k, y, Ideal(d, ts), After(fs, txns, ends[|ts|]))
  {
    hide OnDisk, Carries, AllCovered, Chain;
    assert Sized(ts);
    if ts != [] {
      var m := |ts| - 1;
      FewerGroups(k, ts, fs, txns, ends);
      IdealOnDisk(k, y, d, fs, txns, ts[..m], ends[..m + 1]);
      GroupOf(k, fs, txns, ends[m], ends[m + 1]);
      CarriedOver(k, y, Ideal(d, ts[..m]), ts[m], After(fs, txns, ends[m]), txns[ends[m]..ends[m + 1]]);
    }
  }

  lemma FewerGroups(k: FileSystem, ts: seq<R.Txn>, fs: Fs, txns: seq<Transaction>, ends: seq<nat>)
    requires CarriesGroups(k, ts, fs, txns, ends) && ts != []
    ensures CarriesGroups(k, ts[..|ts| - 1], fs, txns, ends[..|ts|])
    ensures ends[|ts| - 1] <= ends[|ts|]
    ensures Carries(k, ts[|ts| - 1], Logged(txns[ends[|ts| - 1]..ends[|ts|]]), After(fs, txns, ends[|ts|]))
  {
    hide Carries;
  }

  lemma {:induction false} DurableLoggable(y: R.Layout, ms: seq<Machine>, events: seq<Event>, n: nat)
    requires History(y, ms, events) && n <= |events|
    ensures |ms[n].disk| == |ms[0].disk| && AllLoggable(y, ms[0].disk, Durable(events[..n]))
  {
    hide Happens, R.Layout.Loggable, R.Clean, DurableIn;
    if n > 0 {
      DurableLoggable(y, ms, events, n - 1);
      assert Happens(y, ms[n - 1], events[n - 1], ms[n]);
      assert events[..n][..n - 1] == events[..n - 1];
      EventLoggable(y, ms[n - 1], events[n - 1], ms[n], ms[0].disk);
    }
  }

  lemma EventLoggable(y: R.Layout, m: Machine, e: Event, m': Machine, d: R.Disk)
    requires Happens(y, m, e, m') && |m.disk| == |d|
    ensures |m'.disk| == |d| && AllLoggable(y, d, DurableIn(e))
  {
    hide R.CommitWrites, R.RecoveryWrites, R.Apply, R.Clean;
  }

  /** Recovery from the disk yields the blocks of fs; on a running machine they are in place. */
  ghost predicate Yields(k: FileSystem, y: R.Layout, machine: Machine, fs: Fs) {
    && R.WellFormed(y, machine.disk) && |machine.disk| == |fs.data|
    && (forall b: nat :: k.inodestart <= b < |machine.disk| && !y.Inside(b) ==>
          R.View(y, machine.disk, b) == Image(k, fs, b))
    && (machine.up ==> OnDisk(k, y, machine.disk, fs))
  }

  /**
   Any history of commits, crashes and interrupted recoveries in which the durable commits carry
   groups of transactions, of any calls, in the order in which they ran: recovery yields the file
   system after exactly these transactions.
   */
  lemma GroupsSurviveCrash(k: FileSystem, y: R.Layout, ms: seq<Machine>, events: seq<Event>, fs: Fs,
                           txns: seq<Transaction>, ends: seq<nat>)
    requires History(y, ms, events) && OnDisk(k, y, ms[0].disk, fs) && Chain(fs, txns) && AllCovered(k, txns)
    requires CarriesGroups(k, Durable(events), fs, txns, ends)
    ensures Yields(k, y, ms[|events|], After(fs, txns, ends[|Durable(events)|]))
  {
    hide Image, AllCovered, Chain, Carries, CarriesGroups, R.WellFormed, R.View;
    var ts, n := Durable(events), |events|;
    assert events[..n] == events;
    DurableLoggable(y, ms, events, n);
    CrashConsistency(y, ms, events, n);
    GroupEnds(k, ts, fs, txns, ends);
    IdealOnDisk(k, y, ms[0].disk, fs, txns, ts, ends);
  }

  lemma GroupEnds(k: FileSystem, ts: seq<R.Txn>, fs: Fs, txns: seq<Transaction>, ends: seq<nat>)
    requires CarriesGroups(k, ts, fs, txns, ends)
    ensures |ends| == |ts| + 1 && ends[|ts|] <= |txns|
  {
  }

  // ---------- what the files hold ----------

  /** A write of bytes into file i at off, or the truncation of file i. */
  datatype Edit = Write(i: nat, off: nat, bytes: seq<Byte>) | Truncate(i: nat)

  ghost predicate Does(x: Transaction, e: Edit) {
    && Sound(x.before) && Sound(x.after)
    && match e
       case Write(i, off, bytes) => FileWritten(x.before, x.after, i, off, bytes, |bytes|)
       case Truncate(i) => i < |x.before.inodes| && Truncated(x.before, i, x.after)
  }

  /** The contents c of a file after an edit of it; a write past the end does nothing. */
  function EditedOnce(c: seq<Byte>, e: Edit): seq<Byte> {
    match e
    case Write(_, off, bytes) => if off <= |c| then Spliced(c, off, bytes) else c
    case Truncate(_) => []
  }

  /** The contents c of file i after the edits. */
  function Edited(c: seq<Byte>, edits: seq<Edit>, i: nat): seq<Byte> {
    if edits == [] then c
    else
      var c', e := Edited(c, edits[..|edits| - 1], i), edits[|edits| - 1];
      if e.i == i then EditedOnce(c', e) else c'
  }

  lemma OneEdit(x: Transaction, e: Edit, i: nat)
    requires Does(x, e) && i < |x.before.inodes|
    ensures |x.after.inodes| == |x.before.inodes|
    ensures Content(x.after, i) == if e.i == i then EditedOnce(Content(x.before, i), e) else Content(x.before, i)
  {
    match e
    case Write(_, off, bytes) =>
      if e.i == i && off <= |Content(x.before, i)| {
        ShownAll(Content(x.before, i), off, bytes);
      }
    case Truncate(t) => TruncatedContent(x.before, t, x.after, i);
  }

  lemma {:induction false} EditsShow(fs: Fs, txns: seq<Transaction>, edits: seq<Edit>, m: nat, i: nat)
    requires Sound(fs) && Chain(fs, txns) && |edits| == |txns| && m <= |txns| && i < |fs.inodes|
    requires forall j :: 0 <= j < |txns| ==> Does(txns[j], edits[j])
    ensures Sound(After(fs, txns, m)) && |After(fs, txns, m).inodes| == |fs.inodes|
    ensures Content(After(fs, txns, m), i) == Edited(Content(fs, i), edits[..m], i)
  {
    hide Sound, Content, EditedOnce;
    if m > 0 {
      EditsShow(fs, txns, edits, m - 1, i);
      assert txns[m - 1].before == After(fs, txns, m - 1);
      assert Does(txns[m - 1], edits[m - 1]);
      assert edits[..m][..m - 1] == edits[..m - 1];
      OneEdit(txns[m - 1], edits[m - 1], i);
    }
  }

  /**
   The same for writes and truncations: after any crashes every file holds the effect of exactly
   those in the durable groups, each of them whole and in order, and the file system is sound.
   */
  lemma WritesSurviveCrash(k: FileSystem, y: R.Layout, ms: seq<Machine>, events: seq<Event>, fs: Fs,
                           txns: seq<Transaction>, edits: seq<Edit>, ends: seq<nat>)
    requires History(y, ms, events) && OnDisk(k, y, ms[0].disk, fs) && Chain(fs, txns) && AllCovered(k, txns)
    requires CarriesGroups(k, Durable(events), fs, txns, ends)
    requires Sound(fs) && |edits| == |txns| && forall j :: 0 <= j < |txns| ==> Does(txns[j], edits[j])
    ensures
      var g := ends[|Durable(events)|];
      var fs' := After(fs, txns, g);
      && Yields(k, y, ms[|events|], fs') && Sound(fs') && |fs'.inodes| == |fs.inodes|
      && forall i: nat :: i < |fs.inodes| ==> Content(fs', i) == Edited(Content(fs, i), edits[..g], i)
  {
    hide Sound, Content, Yields, Carries, AllCovered, History, Does, Edited, OnDisk;
    GroupsSurviveCrash(k, y, ms, events, fs, txns, ends);
    var g := ends[|Durable(events)|];
    SoundAfter(fs, txns, edits, g);
    forall i: nat | i < |fs.inodes| ensures Content(After(fs, txns, g), i) == Edited(Content(fs, i), edits[..g], i) {
      EditsShow(fs, txns, edits, g, i);
    }
  }

  /**
   A truncation, committed on a log or cut by a crash at any block write: afterwards the file is whole
   or empty, every other file is as before, and the file system is sound.
   */
  lemma TruncationSurvivesCrash(k: FileSystem, y: R.Layout, ms: seq<Machine>, events: seq<Event>, x: Transaction,
                                i: nat)
    returns (fs': Fs)
    requires History(y, ms, events) && OnDisk(k, y, ms[0].disk, x.before) && k.Covers(x) && x.loose == {}
    requires Sound(x.before) && Sound(x.after) && i < |x.before.inodes| && Truncated(x.before, i, x.after)
    requires |Durable(events)| <= 1
    requires forall t :: t in Durable(events) ==> Carries(k, t, x.blocks, x.after)
    ensures Yields(k, y, ms[|events|], fs') && Sound(fs') && |fs'.inodes| == |x.before.inodes|
    ensures forall j: nat :: j < |fs'.inodes| ==>
              Content(fs', j) == if j == i && Durable(events) != [] then [] else Content(x.before, j)
  {
    hide Sound, Content, Yields, Carries, CarriesGroups, History, OnDisk, FileSystem.Covers;
    hide EditedOnce, Edited, Durable;
    var ts := Durable(events);
    var ends := OneGroup(k, ts, x);
    fs' := After(x.before, [x], |ts|);
    WritesSurviveCrash(k, y, ms, events, x.before, [x], [Truncate(i)], ends);
    forall j: nat | j < |fs'.inodes|
      ensures Content(fs', j) == if j == i && ts != [] then [] else Content(x.before, j)
    {
      if ts != [] {
        TruncatedContent(x.before, i, x.after, j);
      }
    }
  }

  lemma OneGroup(k: FileSystem, ts: seq<R.Txn>, x: Transaction) returns (ends: seq<nat>)
    requires |ts| <= 1 && forall t :: t in ts ==> Carries(k, t, x.blocks, x.after)
    ensures CarriesGroups(k, ts, x.before, [x], ends) && |ends| == |ts| + 1 && ends[|ts|] == |ts|
  {
    hide Carries;
    if ts == [] {
      ends := [0];
    } else {
      ends := [0, 1];
      assert [x][0..1] == [x] && [x][..0] == [] && Logged([]) == {} && Logged([x]) == x.blocks;
      assert ts[0] in ts;
    }
  }

  lemma {:induction false} SoundAfter(fs: Fs, txns: seq<Transaction>, edits: seq<Edit>, m: nat)
    requires Sound(fs) && Chain(fs, txns) && |edits| == |txns| && m <= |txns|
    requires forall j :: 0 <= j < |txns| ==> Does(txns[j], edits[j])
    ensures Sound(After(fs, txns, m)) && |After(fs, txns, m).inodes| == |fs.inodes|
  {
    hide Sound;
    if m > 0 {
      assert Does(txns[m - 1], edits[m - 1]);
      SoundAfter(fs, txns, edits, m - 1);
      assert txns[m - 1].before == After(fs, txns, m - 1);
    }
  }

  // ---------- the transactions of one call ----------

  /** Where chunk t of a call that wrote `done` bytes starts. */
  function ChunkStart(t: nat, done: nat): nat {
    Least(t * CHUNK, done)
  }

  /** After the first m transactions of a call, all of them whole, m chunks are written. */
  lemma UpToChunk(k: FileSystem, fs: Fs, i: nat, off: nat, src: seq<Byte>, done: nat, put: nat, txns: seq<Transaction>,
                  m: nat)
    requires Sound(fs) && i < |fs.inodes| && done <= put <= |src| && k.Chunked(fs, i, off, src, done, put, txns)
    requires m <= |txns| && (put == done || m < |txns|)
    ensures AllCovered(k, txns[..m]) && Chain(fs, txns) && Sound(After(fs, txns, m))
    ensures FileWritten(fs, After(fs, txns, m), i, off, src[..ChunkStart(m, done)], ChunkStart(m, done))
  {
    hide Sound, FileWritten, FileSystem.Covers;
    forall j | 0 <= j < m ensures txns[j].loose == {} && k.Covers(txns[j]) {
      assert |txns[j].loose| <= Count(put > done && j + 1 == |txns|);
      assert k.Fits(txns[j]);
    }
    if m == 0 {
      NothingYet(fs, i, off);
      assert src[..0] == [];
    } else {
      assert k.AfterTxn(fs, i, off, src, done, put, txns, m - 1);
    }
  }

  /** Each transaction of a call is the write of one chunk. */
  lemma ChunkDoes(k: FileSystem, fs: Fs, i: nat, off: nat, src: seq<Byte>, done: nat, put: nat, txns: seq<Transaction>,
                  t: nat)
    requires Sound(fs) && i < |fs.inodes| && done <= put <= |src| && k.Chunked(fs, i, off, src, done, put, txns)
    requires t < |txns| && (put == done || t + 1 < |txns|)
    ensures ChunkStart(t, done) <= ChunkStart(t + 1, done) <= |src|
    ensures
      var a, b := ChunkStart(t, done), ChunkStart(t + 1, done);
      Does(txns[t], Write(i, off + a, src[a..b]))
  {
    hide Sound, FileWritten, FileSystem.Chunked;
    UpToChunk(k, fs, i, off, src, done, put, txns, t);
    UpToChunk(k, fs, i, off, src, done, put, txns, t + 1);
    assert txns[t].before == After(fs, txns, t);
    NextWrite(fs, txns[t].before, txns[t].after, i, off, src, ChunkStart(t, done), ChunkStart(t + 1, done));
  }

  /** What comes between two prefixes of a write is a write of the bytes between them. */
  lemma NextWrite(fs: Fs, fs1: Fs, fs2: Fs, i: nat, off: nat, src: seq<Byte>, a: nat, b: nat)
    requires Sound(fs) && Sound(fs1) && Sound(fs2) && a <= b <= |src|
    requires FileWritten(fs, fs1, i, off, src[..a], a) && FileWritten(fs, fs2, i, off, src[..b], b)
    ensures FileWritten(fs1, fs2, i, off + a, src[a..b], b - a)
  {
    hide Sound, Content, Spliced;
    var c := Content(fs, i);
    if off <= |c| {
      ShownAll(c, off, src[..a]);
      ShownAll(c, off, src[..b]);
      assert src[..a] + src[a..b] == src[..b];
      SplicedTwice(c, off, src[..a], src[a..b]);
      ShownAll(Content(fs1, i), off + a, src[a..b]);
    }
  }

  /** Nothing is committed after a crash in a commit: the calling process is gone. */
  ghost predicate OneCall(events: seq<Event>) {
    forall a, b :: 0 <= a < b < |events| && events[a].CrashInCommit? ==>
      events[b].CrashInRecovery? || events[b].RecoveryDone?
  }

  /** The transactions whose commit was begun. */
  function Attempted(events: seq<Event>): seq<R.Txn> {
    if events == [] then []
    else Attempted(events[..|events| - 1]) + match events[|events| - 1]
                                             case CommitDone(t) => [t]
                                             case CrashInCommit(t, _) => [t]
                                             case _ => []
  }

  ghost predicate Crashed(events: seq<Event>) {
    exists a :: 0 <= a < |events| && events[a].CrashInCommit?
  }

  /** All attempts are durable, but for the last one if the machine crashed in it. */
  lemma {:induction false} DurableFirst(events: seq<Event>)
    requires OneCall(events)
    ensures Durable(events) <= Attempted(events)
    ensures !Crashed(events) ==> Durable(events) == Attempted(events)
  {
    if events != [] {
      var n := |events| - 1;
      DurableFirst(events[..n]);
      assert !events[n].CrashInRecovery? && !events[n].RecoveryDone? ==> !Crashed(events[..n]);
      assert Crashed(events[..n]) ==> Crashed(events);
    }
  }

  /** The first transactions of txns, in order and one in each of ts. */
  ghost predicate CarriesFirst(k: FileSystem, ts: seq<R.Txn>, txns: seq<Transaction>) {
    |ts| <= |txns| && forall j :: 0 <= j < |ts| ==> Carries(k, ts[j], txns[j].blocks, txns[j].after)
  }

  lemma OneByOne(k: FileSystem, ts: seq<R.Txn>, fs: Fs, txns: seq<Transaction>, ends: seq<nat>)
    requires CarriesFirst(k, ts, txns) && |ts| == |txns| && |ends| == |ts| + 1
    requires forall j :: 0 <= j < |ends| ==> ends[j] == j
    ensures CarriesGroups(k, ts, fs, txns, ends)
  {
    hide Carries;
    forall j, m | 0 <= j < |ts| && m == j + 1
      ensures Carries(k, ts[j], Logged(txns[ends[j]..ends[m]]), After(fs, txns, ends[m]))
    {
      assert txns[j..m] == [txns[j]] && [txns[j]][..0] == [];
      assert Logged([txns[j]]) == txns[j].blocks;
    }
  }

  /**
   A write system call whose transactions are committed one by one, until the machine crashes, if it
   does: recovery yields the blocks of a sound file system that has a whole number of the call's
   chunks, all that are durable. The last one must not have been torn by an unreadable source.
   */
  lemma WriteSurvivesCrash(k: FileSystem, y: R.Layout, ms: seq<Machine>, events: seq<Event>,
                           fs: Fs, i: nat, off: nat, src: seq<Byte>, done: nat, put: nat, txns: seq<Transaction>)
    requires History(y, ms, events) && OneCall(events)
    requires Sound(fs) && i < |fs.inodes| && done <= put <= |src| && k.Chunked(fs, i, off, src, done, put, txns)
    requires OnDisk(k, y, ms[0].disk, fs) && CarriesFirst(k, Attempted(events), txns)
    requires put == done || |Durable(events)| < |txns|
    ensures |Durable(events)| <= |txns|
    ensures
      var m := |Durable(events)|;
      var fs', n := After(fs, txns, m), ChunkStart(m, done);
      && Sound(fs') && FileWritten(fs, fs', i, off, src[..n], n) && Yields(k, y, ms[|events|], fs')
  {
    hide Sound, FileWritten, FileSystem.Chunked, Carries, Yields, OnDisk, History, ChunkStart, AllCovered;
    hide CarriesGroups;
    var ts := Durable(events);
    DurableFirst(events);
    UpToChunk(k, fs, i, off, src, done, put, txns, |ts|);
    var first, ends := txns[..|ts|], seq(|ts| + 1, j requires 0 <= j => j as nat);
    OneByOne(k, ts, fs, first, ends);
    GroupsSurviveCrash(k, y, ms, events, fs, first, ends);
  }

  // ---------- such histories exist ----------

  lemma SameLayout(k: FileSystem, y: R.Layout, fs: Fs, txns: seq<Transaction>)
    requires LaidOut(k, y, fs) && Chain(fs, txns) && AllCovered(k, txns)
    ensures LaidOut(k, y, After(fs, txns, |txns|)) && |After(fs, txns, |txns|).data| == |fs.data|
  {
    hide AllCovered, Chain;
    SameSize(k, fs, txns);
  }

  /** One more commit on a running machine with an empty log. */
  lemma CommitMore(y: R.Layout, ms: seq<Machine>, events: seq<Event>, t: R.Txn) returns (m: Machine)
    requires History(y, ms, events) && ms[|events|].up && R.Clean(y, ms[|events|].disk)
    requires R.ValidTxn(y, ms[|events|].disk, t)
    ensures History(y, ms + [m], events + [CommitDone(t)]) && m.up && R.Clean(y, m.disk)
    ensures |m.disk| == |ms[|events|].disk| && Attempted(events + [CommitDone(t)]) == Attempted(events) + [t]
  {
    hide R.CommitWrites, R.Apply;
    var d := ms[|events|].disk;
    var ws := R.CommitWrites(y, d, t);
    assert ws[..|ws|] == ws;
    R.CommitAtomic(y, d, t, |ws|);
    m := Machine(R.Apply(d, ws), true);
    var events', ms' := events + [CommitDone(t)], ms + [m];
    assert events'[..|events|] == events;
    forall i, j | 0 <= i < |events'| && j == i + 1 ensures Happens(y, ms'[i], events'[i], ms'[j]) {
      if i < |events| {
        assert Happens(y, ms[i], events[i], ms[j]);
      }
    }
  }

  /** The transactions of a call can all be committed, on a log of more than MAXOPBLOCKS blocks. */
  lemma {:induction false} CallCanCommit(k: FileSystem, y: R.Layout, d: R.Disk, fs: Fs, txns: seq<Transaction>, m: nat)
    returns (ms: seq<Machine>, events: seq<Event>)
    requires LaidOut(k, y, fs) && |d| == |fs.data| && R.Clean(y, d) && y.size > MAXOPBLOCKS && m <= |txns|
    requires Chain(fs, txns) && AllCovered(k, txns) && forall j :: 0 <= j < |txns| ==> k.Fits(txns[j])
    ensures History(y, ms, events) && ms[0].disk == d && OneCall(events) && |Attempted(events)| == m == |events|
    ensures CarriesFirst(k, Attempted(events), txns) && ms[m].up && R.Clean(y, ms[m].disk) && |ms[m].disk| == |d|
    ensures forall j :: 0 <= j < |events| ==> events[j].CommitDone?
  {
    hide FileSystem.Fits, FileSystem.Covers, LaidOut, Carries, R.Clean, R.ValidTxn, Happens;
    ms, events := [Machine(d, true)], [];
    if m > 0 {
      ms, events := CallCanCommit(k, y, d, fs, txns, m - 1);
      SameLayout(k, y, fs, txns[..m - 1]);
      assert txns[m - 1].before == After(fs, txns[..m - 1], m - 1);
      var t := ChunkCanCommit(k, y, ms[m - 1].disk, txns[m - 1]);
      CarriedIsValid(k, y, ms[m - 1].disk, t, txns[m - 1]);
      var machine := CommitMore(y, ms, events, t);
      ms, events := ms + [machine], events + [CommitDone(t)];
    }
  }

  lemma CarriedIsValid(k: FileSystem, y: R.Layout, d: R.Disk, t: R.Txn, x: Transaction)
    requires Carries(k, t, x.blocks, x.after) && y.Loggable(d, t.blocks)
    ensures R.ValidTxn(y, d, t)
  {
  }
}
