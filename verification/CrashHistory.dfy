/**
 Whole histories of a disk with a redo log: any commits, crashes between any two block
 writes, and recoveries that may themselves be cut short.
 */
module CrashHistory {
  import opened RedoLog

  /** What can happen to a machine: an event names its transaction and how many writes were done. */
  datatype Event =
    | CommitDone(t: Txn)
    | CrashInCommit(t: Txn, done: nat)
    | CrashInRecovery(done: nat)
    | RecoveryDone

  datatype Machine = Machine(disk: Disk, up: bool)

  /** Commits happen on a running machine. A crash brings it down, a complete recovery up again. */
  ghost predicate Happens(y: Layout, m: Machine, e: Event, m': Machine) {
    match e
    case CommitDone(t) =>
      && m.up && Clean(y, m.disk) && ValidTxn(y, m.disk, t)
      && m' == Machine(Apply(m.disk, CommitWrites(y, m.disk, t)), true)
    case CrashInCommit(t, k) =>
      && m.up && Clean(y, m.disk) && ValidTxn(y, m.disk, t) && k <= |CommitWrites(y, m.disk, t)|
      && m' == Machine(Apply(m.disk, CommitWrites(y, m.disk, t)[..k]), false)
    case CrashInRecovery(k) =>
      && !m.up && WellFormed(y, m.disk) && k <= |RecoveryWrites(y, m.disk)|
      && m' == Machine(Apply(m.disk, RecoveryWrites(y, m.disk)[..k]), false)
    case RecoveryDone =>
      && !m.up && WellFormed(y, m.disk)
      && m' == Machine(Apply(m.disk, RecoveryWrites(y, m.disk)), true)
  }

  /** ms[i] is the machine before event i. The first one runs with an empty log. */
  ghost predicate History(y: Layout, ms: seq<Machine>, events: seq<Event>) {
    && |ms| == |events| + 1 && ms[0].up && Clean(y, ms[0].disk)
    && forall i, j :: 0 <= i < |events| && j == i + 1 ==> Happens(y, ms[i], events[i], ms[j])
  }

  /** The transaction of an event if its header write reached the disk. */
  function DurableIn(e: Event): seq<Txn> {
    match e
    case CommitDone(t) => [t]
    case CrashInCommit(t, k) => if k > |t.blocks| then [t] else []
    case _ => []
  }

  function Durable(events: seq<Event>): seq<Txn> {
    if events == [] then [] else Durable(events[..|events| - 1]) + DurableIn(events[|events| - 1])
  }

  /** The disk if the transactions were written straight to the home blocks, without a log. */
  function Ideal(d: Disk, ts: seq<Txn>): (r: Disk)
    requires forall i :: 0 <= i < |ts| ==> |ts[i].data| == |ts[i].blocks|
    ensures |r| == |d|
  {
    if ts == [] then d
    else Apply(Ideal(d, ts[..|ts| - 1]), Puts(ts[|ts| - 1].blocks, ts[|ts| - 1].data))
  }

  /** Recovery from d yields the home blocks of `ideal`. */
  ghost predicate Represents(y: Layout, d: Disk, ideal: Disk) {
    && WellFormed(y, d) && |d| == |ideal|
    && forall b :: 0 <= b < |ideal| && !y.Inside(b) ==> View(y, d, b) == ideal[b]
  }

  lemma CommitRepresents(y: Layout, d: Disk, t: Txn, d': Disk, ideal: Disk)
    requires Represents(y, d, ideal) && ValidTxn(y, d, t) && Committed(y, d, t, d')
    ensures Represents(y, d', Apply(ideal, Puts(t.blocks, t.data)))
  {
    var n := |t.blocks|;
    assert Puts(t.blocks, t.data)[..n] == Puts(t.blocks, t.data);
    ApplyPuts(ideal, t.blocks, t.data, n);
    forall b | 0 <= b < |ideal| && !y.Inside(b)
      ensures View(y, d', b) == Apply(ideal, Puts(t.blocks, t.data))[b]
    {
      if Listed(t.blocks, n, b) {
        var i :| 0 <= i < n && t.blocks[i] == b;
      }
    }
  }

  lemma CommitEvent(y: Layout, m: Machine, t: Txn, m': Machine, ideal: Disk)
    requires Happens(y, m, CommitDone(t), m') && Represents(y, m.disk, ideal)
    ensures Clean(y, m'.disk) && Represents(y, m'.disk, Apply(ideal, Puts(t.blocks, t.data)))
  {
    var ws := CommitWrites(y, m.disk, t);
    assert ws[..|ws|] == ws;
    CommitAtomic(y, m.disk, t, |ws|);
    if t.blocks == [] {
      EmptyCommit(y, m.disk, t);
    }
    CommitRepresents(y, m.disk, t, m'.disk, ideal);
  }

  lemma CrashEvent(y: Layout, m: Machine, t: Txn, k: nat, m': Machine, ideal: Disk)
    requires Happens(y, m, CrashInCommit(t, k), m') && Represents(y, m.disk, ideal)
    ensures Represents(y, m'.disk, if k > |t.blocks| then Apply(ideal, Puts(t.blocks, t.data)) else ideal)
  {
    CommitAtomic(y, m.disk, t, k);
    if k > |t.blocks| {
      CommitRepresents(y, m.disk, t, m'.disk, ideal);
    }
  }

  lemma RecoveryEvent(y: Layout, m: Machine, e: Event, m': Machine, ideal: Disk)
    requires (e.CrashInRecovery? || e.RecoveryDone?) && Happens(y, m, e, m') && Represents(y, m.disk, ideal)
    ensures Represents(y, m'.disk, ideal) && (e.RecoveryDone? ==> Clean(y, m'.disk))
  {
    var ws := RecoveryWrites(y, m.disk);
    assert ws[..|ws|] == ws;
    RecoveryIdempotent(y, m.disk, if e.RecoveryDone? then |ws| else e.done);
  }

  ghost predicate Sized(ts: seq<Txn>) {
    forall i :: 0 <= i < |ts| ==> |ts[i].data| == |ts[i].blocks|
  }

  /** One more event: the durable transactions grow as the disk does. */
  lemma AnyEvent(y: Layout, m: Machine, e: Event, m': Machine, d: Disk, ts: seq<Txn>)
    requires Happens(y, m, e, m') && Sized(ts) && Represents(y, m.disk, Ideal(d, ts))
    ensures Sized(ts + DurableIn(e)) && Represents(y, m'.disk, Ideal(d, ts + DurableIn(e)))
    ensures m'.up ==> Clean(y, m'.disk)
  {
    match e {
      case CommitDone(t) =>
        CommitEvent(y, m, t, m', Ideal(d, ts));
      case CrashInCommit(t, k) =>
        CrashEvent(y, m, t, k, m', Ideal(d, ts));
        assert ts + [] == ts;
      case CrashInRecovery(_) =>
        RecoveryEvent(y, m, e, m', Ideal(d, ts));
        assert ts + [] == ts;
      case RecoveryDone =>
        RecoveryEvent(y, m, e, m', Ideal(d, ts));
        assert ts + [] == ts;
    }
  }

  /**
   After any commits, crashes between any two block writes and interrupted recoveries,
   recovery yields exactly the home blocks that the durable transactions leave, in order
   and whole. On a running machine the home blocks hold them already.
   */
  lemma {:induction false} CrashConsistency(y: Layout, ms: seq<Machine>, events: seq<Event>, n: nat)
    requires History(y, ms, events) && n <= |events|
    ensures Sized(Durable(events[..n]))
    ensures Represents(y, ms[n].disk, Ideal(ms[0].disk, Durable(events[..n])))
    ensures ms[n].up ==>
      && Clean(y, ms[n].disk)
      && forall b :: 0 <= b < |ms[0].disk| && !y.Inside(b) ==>
        ms[n].disk[b] == Ideal(ms[0].disk, Durable(events[..n]))[b]
  {
    if n > 0 {
      CrashConsistency(y, ms, events, n - 1);
      assert Happens(y, ms[n - 1], events[n - 1], ms[n]);
      assert events[..n][..n - 1] == events[..n - 1];
      AnyEvent(y, ms[n - 1], events[n - 1], ms[n], ms[0].disk, Durable(events[..n - 1]));
    } else {
      assert events[..0] == [];
    }
    assert ms[n].up ==> Head(y, ms[n].disk) == [];
  }

  /**
   Every cut is possible: a commit may crash after any number k of its writes, and a recovery after any
   number j of its own; the next recovery brings the machine up with the transaction whole or not at all.
   */
  lemma AnyCutHappens(y: Layout, d: Disk, t: Txn, k: nat, j: nat) returns (ms: seq<Machine>, done: nat)
    requires Clean(y, d) && ValidTxn(y, d, t) && k <= |CommitWrites(y, d, t)|
    ensures History(y, ms, [CrashInCommit(t, k), CrashInRecovery(done), RecoveryDone]) && ms[0] == Machine(d, true)
    ensures WellFormed(y, ms[1].disk)
    ensures
      var all := |RecoveryWrites(y, ms[1].disk)|;
      done == if j < all then j else all
    ensures ms[3].up && Clean(y, ms[3].disk) && |ms[3].disk| == |d|
    ensures forall b :: 0 <= b < |d| && !y.Inside(b) ==>
              ms[3].disk[b] == (if k > |t.blocks| then Apply(d, Puts(t.blocks, t.data)) else d)[b]
  {
    hide CommitWrites, RecoveryWrites, Apply, View;
    var m0 := Machine(d, true);
    var m1 := Machine(Apply(d, CommitWrites(y, d, t)[..k]), false);
    var ideal := if k > |t.blocks| then Apply(d, Puts(t.blocks, t.data)) else d;
    CleanIs(y, d);
    CrashEvent(y, m0, t, k, m1, d);
    var all := |RecoveryWrites(y, m1.disk)|;
    done := if j < all then j else all;
    var m2 := Machine(Apply(m1.disk, RecoveryWrites(y, m1.disk)[..done]), false);
    RecoveryEvent(y, m1, CrashInRecovery(done), m2, ideal);
    var m3 := Machine(Apply(m2.disk, RecoveryWrites(y, m2.disk)), true);
    RecoveryEvent(y, m2, RecoveryDone, m3, ideal);
    ms := [m0, m1, m2, m3];
    CleanShows(y, m3.disk, ideal);
  }

  lemma CleanIs(y: Layout, d: Disk)
    requires Clean(y, d)
    ensures Represents(y, d, d)
  {
  }

  lemma CleanShows(y: Layout, d: Disk, ideal: Disk)
    requires Clean(y, d) && Represents(y, d, ideal)
    ensures forall b :: 0 <= b < |d| && !y.Inside(b) ==> d[b] == ideal[b]
  {
  }
}
