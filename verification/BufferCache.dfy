/**
 The buffer cache as a transition system. A handle is one use of a buffer, from bget to
 brelse; any number of them interleave at the granularity of the cache's own critical
 sections: bget's search, the acquisition of the buffer's sleep lock, the disk read, changes
 and writes by the lock's holder, the release of the sleep lock, and brelse's last part.

 `contents` is the plain block map the cache must agree with: what was last logged or written
 for each block. The discipline the cache asks of its users is in Unlock: a holder logs or
 writes what it changed before brelse, and a block that is not pinned is on the disk.

 Buffers are labelled with a device and a block number; device 0 is the label binit leaves. The
 driver has one disk and looks only at the block number.
 */
module BufferCache {

  import opened Params

  type Data = seq<int>

  datatype Buf = Buf(dev: nat, blockno: nat, refcnt: nat, valid: bool, locked: bool, data: Data)

  // ---------- the two searches of bget ----------

  /** The first buffer in list order that caches the block, or -1. */
  function Cached(bufs: seq<Buf>, order: seq<nat>, dev: nat, blockno: nat): (r: int)
    requires forall i :: 0 <= i < |order| ==> order[i] < |bufs|
    ensures r == -1 <==> forall i :: 0 <= i < |order| ==>
      !(bufs[order[i]].dev == dev && bufs[order[i]].blockno == blockno)
    ensures r != -1 ==> r in order && bufs[r].dev == dev && bufs[r].blockno == blockno
  {
    if order == [] then -1
    else if bufs[order[0]].dev == dev && bufs[order[0]].blockno == blockno then order[0]
    else Cached(bufs, order[1..], dev, blockno)
  }

  /** The last buffer in list order that nobody refers to, or -1. */
  function Victim(bufs: seq<Buf>, order: seq<nat>): (r: int)
    requires forall i :: 0 <= i < |order| ==> order[i] < |bufs|
    ensures r == -1 <==> forall i :: 0 <= i < |order| ==> bufs[order[i]].refcnt > 0
    ensures r != -1 ==> r in order && bufs[r].refcnt == 0
    ensures r != -1 ==> exists i :: 0 <= i < |order| && order[i] == r && forall j :: i < j < |order| ==>
      bufs[order[j]].refcnt > 0
  {
    if order == [] then -1
    else
      var last := order[|order| - 1];
      if bufs[last].refcnt == 0 then last else Victim(bufs, order[..|order| - 1])
  }

  /** The buffer bget settles on, -1 for its panic. */
  function Chosen(bufs: seq<Buf>, order: seq<nat>, dev: nat, blockno: nat): int
    requires forall i :: 0 <= i < |order| ==> order[i] < |bufs|
  {
    var c := Cached(bufs, order, dev, blockno);
    if c != -1 then c else Victim(bufs, order)
  }

  /** The chosen buffer after bget's critical section. */
  function Claimed(b: Buf, dev: nat, blockno: nat): Buf {
    if b.dev == dev && b.blockno == blockno then b.(refcnt := b.refcnt + 1)
    else b.(dev := dev, blockno := blockno, valid := false, refcnt := 1)
  }

  function ToFront(order: seq<nat>, b: nat): (r: seq<nat>)
    ensures b in order ==> |r| <= |order|
  {
    [b] + Without(order, b)
  }

  function Without(order: seq<nat>, b: nat): (r: seq<nat>)
    ensures forall x :: x in r <==> x in order && x != b
    ensures |r| <= |order| && (b in order ==> |r| < |order|)
  {
    if order == [] then [] else if order[0] == b then Without(order[1..], b) else [order[0]] + Without(order[1..], b)
  }

  // ---------- steps ----------

  datatype Use = Idle | Waiting(b: nat) | Locked(b: nat) | Using(b: nat) | Releasing(b: nat)

  predicate On(u: Use, b: nat) {
    !u.Idle? && u.b == b
  }

  predicate Holds(u: Use, b: nat) {
    u == Locked(b) || u == Using(b)
  }

  /**
   pins counts bpin less bunpin; moved is when a buffer was last put in front, released when brelse
   last let go of it.
   */
  datatype State = State(
    bufs: seq<Buf>, order: seq<nat>, uses: seq<Use>, disk: seq<Data>,
    contents: seq<Data>, pins: seq<nat>, moved: seq<nat>, released: seq<nat>, clock: nat)

  datatype Step =
    | Get(h: nat, dev: nat, blockno: nat)
    | Lock(h: nat)
    | Fill(h: nat)
    | Change(h: nat, data: Data)
    | Write(h: nat)
    | Log(h: nat, pin: bool)
    | Unpin(h: nat)
    | Unlock(h: nat)
    | Drop(h: nat)

  predicate Sized(s: State) {
    && |s.bufs| == NBUF && |s.pins| == NBUF && |s.moved| == NBUF && |s.released| == NBUF && |s.order| == NBUF
    && |s.contents| == |s.disk|
  }

  /** The list holds every buffer once; a handle's buffer is labelled with a block of the disk. */
  predicate Shape(s: State)
    ensures Shape(s) ==> Sized(s)
  {
    && Sized(s)
    && (forall i :: 0 <= i < NBUF ==> s.order[i] < NBUF)
    && (forall i, j :: 0 <= i < j < NBUF ==> s.order[i] != s.order[j])
    && (forall b :: 0 <= b < NBUF ==> b in s.order)
    && (forall h :: 0 <= h < |s.uses| && !s.uses[h].Idle? ==> s.uses[h].b < NBUF)
    && (forall b :: 0 <= b < NBUF && s.bufs[b].dev != 0 ==> s.bufs[b].blockno < |s.disk|)
    && (forall h :: 0 <= h < |s.uses| && !s.uses[h].Idle? ==> s.bufs[s.uses[h].b].dev != 0)
  }

  predicate Enabled(s: State, step: Step)
    requires Shape(s)
  {
    && step.h < |s.uses|
    && var u := s.uses[step.h];
    match step
    case Get(_, dev, k) => u.Idle? && dev != 0 && k < |s.disk| && Chosen(s.bufs, s.order, dev, k) != -1
    case Lock(_) => u.Waiting? && !s.bufs[u.b].locked
    case Fill(_) => u.Locked?
    case Change(_, _) => u.Using?
    case Write(_) => u.Using?
    case Log(_, pin) => u.Using? && (pin || s.pins[u.b] > 0)
    case Unpin(_) => u.Using? && s.pins[u.b] > 0 && s.bufs[u.b].refcnt > 0
    case Unlock(_) => u.Using? && Stored(s, u.b)
    case Drop(_) => u.Releasing? && s.bufs[u.b].refcnt > 0
  }

  /** What b holds is the block's contents, and unless b is pinned it is on the disk. */
  predicate Stored(s: State, b: nat)
    requires Shape(s) && b < NBUF
  {
    var k := s.bufs[b].blockno;
    k < |s.disk| && s.bufs[b].data == s.contents[k] && (s.pins[b] == 0 ==> s.disk[k] == s.contents[k])
  }

  function WithBuf(s: State, b: nat, buf: Buf, h: nat, u: Use): State
    requires b < |s.bufs| && h < |s.uses|
  {
    s.(bufs := s.bufs[b := buf], uses := s.uses[h := u])
  }

  function After(s: State, step: Step): State
    requires Shape(s) && Enabled(s, step)
  {
    var h, u := step.h, s.uses[step.h];
    match step
    case Get(_, dev, k) =>
      var b := Chosen(s.bufs, s.order, dev, k);
      WithBuf(s, b, Claimed(s.bufs[b], dev, k), h, Waiting(b))
    case Lock(_) => WithBuf(s, u.b, s.bufs[u.b].(locked := true), h, Locked(u.b))
    case Fill(_) =>
      var buf := s.bufs[u.b];
      WithBuf(s, u.b, if buf.valid then buf else buf.(data := s.disk[buf.blockno], valid := true), h, Using(u.b))
    case Change(_, data) => WithBuf(s, u.b, s.bufs[u.b].(data := data), h, u)
    case Write(_) =>
      var buf := s.bufs[u.b];
      s.(disk := s.disk[buf.blockno := buf.data], contents := s.contents[buf.blockno := buf.data])
    case Log(_, pin) =>
      var buf := s.bufs[u.b];
      var s1 := s.(contents := s.contents[buf.blockno := buf.data]);
      if pin then
        WithBuf(s1, u.b, buf.(refcnt := buf.refcnt + 1), h, u).(pins := s.pins[u.b := s.pins[u.b] + 1])
      else s1
    case Unpin(_) =>
      var buf := s.bufs[u.b];
      WithBuf(s, u.b, buf.(refcnt := buf.refcnt - 1), h, u).(pins := s.pins[u.b := s.pins[u.b] - 1])
    case Unlock(_) => WithBuf(s, u.b, s.bufs[u.b].(locked := false), h, Releasing(u.b))
    case Drop(_) =>
      var buf := s.bufs[u.b];
      var s1 := WithBuf(s, u.b, buf.(refcnt := buf.refcnt - 1), h, Idle)
                .(released := s.released[u.b := s.clock], clock := s.clock + 1);
      if buf.refcnt == 1 then s1.(order := ToFront(s.order, u.b), moved := s.moved[u.b := s.clock]) else s1
  }

  predicate Next(s: State, step: Step, s': State) {
    Shape(s) && Enabled(s, step) && s' == After(s, step)
  }

  /** After binit, with every disk block as it stands. */
  predicate Init(s: State) {
    && Shape(s) && s.contents == s.disk && s.clock == NBUF
    && (forall b :: 0 <= b < NBUF ==> s.bufs[b] == Buf(0, 0, 0, false, false, s.bufs[b].data) && s.pins[b] == 0)
    && (forall b :: 0 <= b < NBUF ==> s.moved[b] == b && s.released[b] == b)
    && (forall i :: 0 <= i < NBUF ==> s.order[i] == NBUF - 1 - i)
    && (forall h :: 0 <= h < |s.uses| ==> s.uses[h].Idle?)
  }

  // ---------- the invariant ----------

  function Users(uses: seq<Use>, b: nat): nat {
    if uses == [] then 0 else (if On(uses[|uses| - 1], b) then 1 else 0) + Users(uses[..|uses| - 1], b)
  }

  lemma {:induction false} UsersUpdate(uses: seq<Use>, h: nat, u: Use, b: nat)
    requires h < |uses|
    ensures Users(uses[h := u], b) == Users(uses, b) - (if On(uses[h], b) then 1 else 0) + (if On(u, b) then 1 else 0)
  {
    var n := |uses| - 1;
    if h == n {
      assert uses[h := u][..n] == uses[..n];
    } else {
      assert uses[h := u][..n] == uses[..n][h := u];
      UsersUpdate(uses[..n], h, u, b);
    }
  }

  lemma {:induction false} UsersPositive(uses: seq<Use>, h: nat, b: nat)
    requires h < |uses| && On(uses[h], b)
    ensures Users(uses, b) > 0
  {
    if h < |uses| - 1 {
      UsersPositive(uses[..|uses| - 1], h, b);
    }
  }

  /** References are counted exactly. */
  ghost predicate Counted(s: State)
    requires Shape(s)
  {
    forall b :: 0 <= b < NBUF ==> s.bufs[b].refcnt == s.pins[b] + Users(s.uses, b)
  }

  /** No block of any device is cached twice. */
  ghost predicate Unique(s: State)
    requires Shape(s)
  {
    forall b, c :: 0 <= b < c < NBUF && s.bufs[b].dev == s.bufs[c].dev != 0 ==>
      s.bufs[b].blockno != s.bufs[c].blockno
  }

  /** A sleep lock has one holder, and a holder past the disk read has a valid buffer. */
  ghost predicate Locks(s: State)
    requires Shape(s)
  {
    && (forall h, b :: 0 <= h < |s.uses| && 0 <= b < NBUF && Holds(s.uses[h], b) ==> s.bufs[b].locked)
    && (forall h, g, b :: 0 <= h < g < |s.uses| && 0 <= b < NBUF && Holds(s.uses[h], b) ==> !Holds(s.uses[g], b))
    && (forall h :: 0 <= h < |s.uses| && s.uses[h].Using? ==> s.bufs[s.uses[h].b].valid)
  }

  ghost predicate InUse(s: State, b: nat) {
    exists h :: 0 <= h < |s.uses| && s.uses[h] == Using(b)
  }

  ghost predicate CachesBlock(s: State, b: nat, k: nat)
    requires Shape(s) && b < NBUF
  {
    s.bufs[b].dev != 0 && s.bufs[b].blockno == k && s.bufs[b].valid
  }

  /** A valid buffer nobody is using holds its block; a block no valid buffer holds is on the disk. */
  ghost predicate Agrees(s: State)
    requires Shape(s)
  {
    && (forall b :: 0 <= b < NBUF && s.bufs[b].dev != 0 && s.bufs[b].valid && !InUse(s, b) ==> Stored(s, b))
    && (forall b :: 0 <= b < NBUF && s.pins[b] > 0 ==> s.bufs[b].dev != 0 && s.bufs[b].valid)
    && (forall k :: 0 <= k < |s.disk| ==>
          s.disk[k] == s.contents[k] || exists b :: 0 <= b < NBUF && CachesBlock(s, b, k))
  }

  /** Every buffer that has been used is labelled with device d. */
  ghost predicate OneDevice(s: State, d: nat)
    requires Shape(s)
  {
    forall b :: 0 <= b < NBUF ==> s.bufs[b].dev == 0 || s.bufs[b].dev == d
  }

  /** The list is in the order in which the buffers were put in front. */
  ghost predicate Recency(s: State)
    requires Shape(s)
  {
    && (forall i, j :: 0 <= i < j < NBUF ==> s.moved[s.order[i]] > s.moved[s.order[j]])
    && (forall b :: 0 <= b < NBUF ==> s.moved[b] < s.clock)
    && (forall b :: 0 <= b < NBUF && s.bufs[b].refcnt == 0 ==> s.released[b] == s.moved[b])
  }

  ghost predicate Inv(s: State)
    ensures Inv(s) ==> Shape(s)
  {
    Shape(s) && Counted(s) && Unique(s) && Locks(s) && Recency(s)
  }

  // ---------- every step keeps it ----------

  ghost predicate Listing(order: seq<nat>, n: nat) {
    && |order| == n
    && (forall i :: 0 <= i < n ==> order[i] < NBUF)
    && (forall i, j :: 0 <= i < j < n ==> order[i] != order[j])
  }

  /** Taking one buffer out of the list keeps the others in their order. */
  lemma {:induction false} WithoutAt(order: seq<nat>, k: nat)
    requires k < |order| && forall i, j :: 0 <= i < j < |order| ==> order[i] != order[j]
    ensures Without(order, order[k]) == order[..k] + order[k + 1..]
  {
    if k > 0 {
      WithoutAt(order[1..], k - 1);
      assert order[1..][..k - 1] == order[1..k] && order[1..][k..] == order[k + 1..];
      assert order[..k] == [order[0]] + order[1..k];
    } else {
      AbsentWithout(order[1..], order[0]);
    }
  }

  lemma {:induction false} AbsentWithout(order: seq<nat>, b: nat)
    requires b !in order
    ensures Without(order, b) == order
  {
    if order != [] {
      AbsentWithout(order[1..], b);
    }
  }

  /** Moving a buffer to the front gives a listing again. */
  lemma FrontListing(order: seq<nat>, b: nat, k: nat)
    requires Listing(order, NBUF) && k < NBUF && order[k] == b
    ensures Listing(ToFront(order, b), NBUF) && ToFront(order, b) == [b] + order[..k] + order[k + 1..]
    ensures forall c :: c in ToFront(order, b) <==> c in order
  {
    WithoutAt(order, k);
  }

  /** The buffer a step is about. */
  function Target(s: State, step: Step): (b: nat)
    requires Shape(s) && Enabled(s, step)
    ensures b < NBUF
  {
    if step.Get? then
      var b := Chosen(s.bufs, s.order, step.dev, step.blockno);
      assert b in s.order; b
    else s.uses[step.h].b
  }

  lemma StepFrame(s: State, step: Step)
    requires Shape(s) && Enabled(s, step)
    ensures
      var s', h, b := After(s, step), step.h, Target(s, step);
      && h < |s.uses| == |s'.uses| && s'.uses == s.uses[h := s'.uses[h]]
      && |s'.bufs| == NBUF && s'.bufs == s.bufs[b := s'.bufs[b]]
      && (On(s'.uses[h], b) || s'.uses[h].Idle?) && (On(s.uses[h], b) || s.uses[h].Idle?)
  {
    hide ToFront, Stored;
  }

  /** What a step does to the sizes, to the order and to the label of its buffer. */
  lemma StepLabels(s: State, step: Step)
    requires Shape(s) && Enabled(s, step)
    ensures
      var s', b := After(s, step), Target(s, step);
      && Sized(s') && |s'.disk| == |s.disk| && s'.bufs[b].dev != 0 && s'.bufs[b].blockno < |s.disk|
      && (s'.order == s.order || s'.order == ToFront(s.order, b))
  {
    hide Stored, ToFront;
    if step.Drop? {
      TargetListed(s, Target(s, step));
    }
  }

  lemma TargetListed(s: State, b: nat)
    requires Shape(s) && b < NBUF
    ensures Listing(ToFront(s.order, b), NBUF) && forall c :: c in ToFront(s.order, b) <==> c in s.order
  {
    assert b in s.order;
    var k :| 0 <= k < NBUF && s.order[k] == b;
    FrontListing(s.order, b, k);
  }

  lemma StepShape(s: State, step: Step)
    requires Shape(s) && Enabled(s, step)
    ensures Shape(After(s, step))
  {
    hide After, Enabled, Target, ToFront;
    StepFrame(s, step);
    StepLabels(s, step);
    TargetListed(s, Target(s, step));
  }

  lemma StepCounted(s: State, step: Step)
    requires Shape(s) && Enabled(s, step) && Counted(s) && Shape(After(s, step))
    ensures Counted(After(s, step))
  {
    hide Stored;
    var s' := After(s, step);
    forall b | 0 <= b < NBUF ensures s'.bufs[b].refcnt == s'.pins[b] + Users(s'.uses, b) {
      UsersUpdate(s.uses, step.h, s'.uses[step.h], b);
      if On(s.uses[step.h], b) {
        UsersPositive(s.uses, step.h, b);
      }
    }
  }

  lemma StepUnique(s: State, step: Step)
    requires Shape(s) && Enabled(s, step) && Unique(s) && Shape(After(s, step))
    ensures Unique(After(s, step))
  {
    hide Stored;
    if step.Get? {
      var c := Cached(s.bufs, s.order, step.dev, step.blockno);
      if c == -1 {
        forall b | 0 <= b < NBUF ensures !(s.bufs[b].dev == step.dev && s.bufs[b].blockno == step.blockno) {
          assert b in s.order;
        }
      }
    }
  }

  /** A step moves one handle, and takes or gives up at most its own lock. */
  ghost predicate LockStep(s: State, s': State, h: nat)
    requires Shape(s) && Shape(s')
  {
    && h < |s.uses| == |s'.uses| && (forall g :: 0 <= g < |s.uses| && g != h ==> s'.uses[g] == s.uses[g])
    && (forall b :: 0 <= b < NBUF && s'.bufs[b].locked != s.bufs[b].locked ==>
          if s'.bufs[b].locked then s'.uses[h] == Locked(b) else Holds(s.uses[h], b) && !Holds(s'.uses[h], b))
    && (forall b :: 0 <= b < NBUF && Holds(s'.uses[h], b) && !Holds(s.uses[h], b) ==>
          !s.bufs[b].locked && s'.bufs[b].locked)
  }

  lemma LockFlag(s: State, step: Step)
    requires Shape(s) && Enabled(s, step)
    ensures
      var s', h, b := After(s, step), step.h, Target(s, step);
      && |s'.uses| == |s.uses| && |s'.bufs| == NBUF
      && (!step.Lock? && !step.Unlock? ==>
            s'.bufs[b].locked == s.bufs[b].locked && (Holds(s'.uses[h], b) ==> Holds(s.uses[h], b)))
      && (step.Lock? ==> !s.bufs[b].locked && s'.bufs[b].locked && s'.uses[h] == Locked(b))
      && (step.Unlock? ==> !s'.bufs[b].locked && Holds(s.uses[h], b) && !Holds(s'.uses[h], b))
  {
    hide ToFront, Stored;
  }

  lemma StepIsLockStep(s: State, step: Step)
    requires Shape(s) && Enabled(s, step) && Shape(After(s, step))
    ensures LockStep(s, After(s, step), step.h)
  {
    hide After, Enabled, Target;
    StepFrame(s, step);
    LockFlag(s, step);
  }

  /** A step that takes or gives up at most its own lock keeps the holders apart. */
  lemma LocksKept(s: State, s': State, h: nat)
    requires Shape(s) && Shape(s') && Locks(s) && LockStep(s, s', h)
    requires forall g :: 0 <= g < |s'.uses| && s'.uses[g].Using? ==> s'.bufs[s'.uses[g].b].valid
    ensures Locks(s')
  {
    hide Shape;
    forall g, b | 0 <= g < |s'.uses| && 0 <= b < NBUF && Holds(s'.uses[g], b) ensures s'.bufs[b].locked {
      assert g != h ==> s'.uses[g] == s.uses[g];
    }
    forall f, g, b | 0 <= f < g < |s'.uses| && 0 <= b < NBUF && Holds(s'.uses[f], b) ensures !Holds(s'.uses[g], b) {
      assert f != h ==> s'.uses[f] == s.uses[f];
      assert g != h ==> s'.uses[g] == s.uses[g];
    }
  }

  lemma StepLocks(s: State, step: Step)
    requires Shape(s) && Enabled(s, step) && Locks(s) && Counted(s) && Shape(After(s, step))
    ensures Locks(After(s, step))
  {
    hide After, Enabled, Shape, Counted, Locks, LockStep;
    StepIsLockStep(s, step);
    StepValid(s, step);
    LocksKept(s, After(s, step), step.h);
  }

  lemma StepValid(s: State, step: Step)
    requires Shape(s) && Enabled(s, step) && Locks(s) && Counted(s) && Shape(After(s, step))
    ensures
      var s' := After(s, step);
      forall h :: 0 <= h < |s'.uses| && s'.uses[h].Using? ==> s'.bufs[s'.uses[h].b].valid
  {
    hide Stored, ToFront, Counted;
    if step.Get? {
      NoUsers(s, Chosen(s.bufs, s.order, step.dev, step.blockno));
    }
  }

  /** Nobody is using a buffer with no references. */
  lemma NoUsers(s: State, b: int)
    requires Shape(s) && Counted(s) && 0 <= b < NBUF
    ensures s.bufs[b].refcnt == 0 ==> s.pins[b] == 0 && forall h :: 0 <= h < |s.uses| ==> !On(s.uses[h], b)
  {
    forall h | 0 <= h < |s.uses| && On(s.uses[h], b) ensures s.bufs[b].refcnt > 0 {
      UsersPositive(s.uses, h, b);
    }
  }

  /** The same blocks in the same buffers, with the same users: nothing to show. */
  lemma AgreesKept(s: State, s': State)
    requires Shape(s) && Shape(s') && Agrees(s) && s'.disk == s.disk && s'.contents == s.contents && s'.pins == s.pins
    requires forall b :: 0 <= b < NBUF ==>
               && s'.bufs[b].dev == s.bufs[b].dev && s'.bufs[b].blockno == s.bufs[b].blockno
               && s'.bufs[b].valid == s.bufs[b].valid && s'.bufs[b].data == s.bufs[b].data
    requires forall b :: 0 <= b < NBUF && !InUse(s', b) && s.bufs[b].valid ==> !InUse(s, b) || Stored(s, b)
    ensures Agrees(s')
  {
    hide Shape, InUse;
    forall k | 0 <= k < |s'.disk|
      ensures s'.disk[k] == s'.contents[k] || exists b :: 0 <= b < NBUF && CachesBlock(s', b, k)
    {
      if b :| 0 <= b < NBUF && CachesBlock(s, b, k) {
        assert CachesBlock(s', b, k);
      }
    }
  }

  /** Recycling a buffer: its old block is on the disk, its new one in no valid buffer. */
  lemma AgreesRecycled(s: State, b: nat, dev: nat, k: nat, h: nat)
    requires Shape(s) && Agrees(s) && Counted(s) && b < NBUF && s.bufs[b].refcnt == 0
    requires h < |s.uses| && s.uses[h].Idle? && dev != 0 && k < |s.disk|
    requires !(s.bufs[b].dev == dev && s.bufs[b].blockno == k)
    requires Shape(WithBuf(s, b, Claimed(s.bufs[b], dev, k), h, Waiting(b)))
    ensures Agrees(WithBuf(s, b, Claimed(s.bufs[b], dev, k), h, Waiting(b)))
  {
    hide Shape;
    var s' := WithBuf(s, b, Claimed(s.bufs[b], dev, k), h, Waiting(b));
    NoUsers(s, b);
    assert !InUse(s, b);
    forall c | 0 <= c < NBUF ensures InUse(s', c) <==> InUse(s, c) {
      SameUsers(s, s', h, c);
    }
    forall j | 0 <= j < |s'.disk|
      ensures s'.disk[j] == s'.contents[j] || exists c :: 0 <= c < NBUF && CachesBlock(s', c, j)
    {
      if c :| 0 <= c < NBUF && CachesBlock(s, c, j) {
        assert c == b || CachesBlock(s', c, j);
      }
    }
  }

  lemma SameUsers(s: State, s': State, h: nat, b: nat)
    requires h < |s.uses| == |s'.uses| && s'.uses == s.uses[h := s'.uses[h]]
    requires s'.uses[h] == Using(b) <==> s.uses[h] == Using(b)
    ensures InUse(s', b) <==> InUse(s, b)
  {
    if InUse(s, b) {
      var g :| 0 <= g < |s.uses| && s.uses[g] == Using(b);
      assert s'.uses[g] == Using(b);
    }
    if InUse(s', b) {
      var g :| 0 <= g < |s'.uses| && s'.uses[g] == Using(b);
      assert s.uses[g] == Using(b);
    }
  }

  /** What the step of a holder leaves alone: every other buffer, and every other block. */
  ghost predicate HolderStep(s: State, s': State, h: nat, b: nat)
    requires Shape(s) && Shape(s')
  {
    && h < |s.uses| == |s'.uses| && b < NBUF && s.uses[h] in {Locked(b), Using(b)} && s'.uses == s.uses[h := Using(b)]
    && s'.bufs == s.bufs[b := s'.bufs[b]] && s'.pins == s.pins[b := s'.pins[b]]
    && s.bufs[b].dev != 0 && s'.bufs[b].dev == s.bufs[b].dev && s'.bufs[b].blockno == s.bufs[b].blockno
    && s'.bufs[b].valid && |s'.disk| == |s.disk|
    && forall j :: 0 <= j < |s.disk| && j != s.bufs[b].blockno ==>
         s'.disk[j] == s.disk[j] && s'.contents[j] == s.contents[j]
  }

  lemma StepIsHolderStep(s: State, step: Step)
    requires Shape(s) && Enabled(s, step) && Locks(s) && Shape(After(s, step))
    requires step.Change? || step.Write? || step.Log? || step.Unpin? || step.Fill?
    ensures HolderStep(s, After(s, step), step.h, s.uses[step.h].b)
  {
    hide ToFront;
  }

  /** A holder's changes concern no other buffer: no other one holds the block. */
  lemma AgreesHolder(s: State, s': State, h: nat, b: nat, d: nat)
    requires Shape(s) && Shape(s') && Agrees(s) && Unique(s) && OneDevice(s, d) && HolderStep(s, s', h, b)
    ensures Agrees(s')
  {
    hide Shape;
    var k := s.bufs[b].blockno;
    assert s'.uses[h] == Using(b) && InUse(s', b) && CachesBlock(s', b, k);
    forall c | 0 <= c < NBUF && c != b && s'.bufs[c].dev != 0 && s'.bufs[c].valid && !InUse(s', c)
      ensures Stored(s', c)
    {
      SameUsers(s, s', h, c);
      assert Stored(s, c) && s.bufs[c].blockno != k;
    }
    forall j | 0 <= j < |s'.disk|
      ensures s'.disk[j] == s'.contents[j] || exists c :: 0 <= c < NBUF && CachesBlock(s', c, j)
    {
      if j != k && s.disk[j] != s.contents[j] {
        var c :| 0 <= c < NBUF && CachesBlock(s, c, j);
        assert CachesBlock(s', c, j);
      }
    }
  }

  lemma StepAgrees(s: State, step: Step, d: nat)
    requires Inv(s) && Agrees(s) && OneDevice(s, d) && Enabled(s, step) && (step.Get? ==> step.dev == d)
    requires Shape(After(s, step))
    ensures Agrees(After(s, step)) && OneDevice(After(s, step), d)
  {
    hide Counted, Unique, Locks, Recency, Agrees, ToFront;
    var s', h := After(s, step), step.h;
    StepFrame(s, step);
    if step.Get? {
      var b := Target(s, step);
      if Cached(s.bufs, s.order, d, step.blockno) == -1 {
        AgreesRecycled(s, b, d, step.blockno, h);
      } else {
        forall c | 0 <= c < NBUF ensures InUse(s', c) <==> InUse(s, c) {
          SameUsers(s, s', h, c);
        }
        AgreesKept(s, s');
      }
    } else if step.Lock? || step.Unlock? || step.Drop? {
      forall c | 0 <= c < NBUF && (!step.Unlock? || c != s.uses[h].b) ensures InUse(s', c) <==> InUse(s, c) {
        SameUsers(s, s', h, c);
      }
      AgreesKept(s, s');
    } else {
      StepIsHolderStep(s, step);
      AgreesHolder(s, s', h, s.uses[h].b, d);
    }
  }

  lemma StepRecency(s: State, step: Step)
    requires Inv(s) && Enabled(s, step) && Shape(After(s, step))
    ensures Recency(After(s, step))
  {
    hide After, Enabled, Shape, Target, Counted, Unique, Locks;
    if step.Drop? {
      DropRecency(s, step);
    } else {
      StepFrame(s, step);
      OrderKept(s, step);
    }
  }

  /** Only brelse changes the order, and only bget gives an unreferenced buffer its first reference. */
  lemma OrderKept(s: State, step: Step)
    requires Shape(s) && Counted(s) && Enabled(s, step) && !step.Drop?
    ensures
      var s', b := After(s, step), Target(s, step);
      && s'.order == s.order && s'.moved == s.moved && s'.released == s.released && s'.clock == s.clock
      && |s'.bufs| == NBUF && (s'.bufs[b].refcnt > 0 || s.bufs[b].refcnt == 0)
  {
    hide Counted, ToFront, Stored;
    if step.Unpin? {
      HeldAndPinned(s, step.h);
    }
  }

  lemma DropRecency(s: State, step: Step)
    requires Shape(s) && Recency(s) && step.Drop? && Enabled(s, step) && Shape(After(s, step))
    ensures Recency(After(s, step))
  {
    hide ToFront, Stored;
    var s', b := After(s, step), s.uses[step.h].b;
    if s.bufs[b].refcnt == 1 {
      assert b in s.order;
      var k :| 0 <= k < NBUF && s.order[k] == b;
      FrontListing(s.order, b, k);
      MovedInOrder(s, b, k);
    }
    assert forall c :: 0 <= c < NBUF && c != b ==>
      s'.bufs[c] == s.bufs[c] && s'.moved[c] == s.moved[c] && s'.released[c] == s.released[c];
    hide After, Shape, Enabled;
  }

  lemma MovedInOrder(s: State, b: nat, k: nat)
    requires Shape(s) && Recency(s) && k < NBUF && s.order[k] == b
    ensures
      var order, moved := [b] + s.order[..k] + s.order[k + 1..], s.moved[b := s.clock];
      forall i, j :: 0 <= i < j < NBUF && order[i] < NBUF && order[j] < NBUF ==> moved[order[i]] > moved[order[j]]
  {
    var order, moved := [b] + s.order[..k] + s.order[k + 1..], s.moved[b := s.clock];
    forall i, j | 0 <= i < j < NBUF && order[i] < NBUF && order[j] < NBUF ensures moved[order[i]] > moved[order[j]] {
      var i', j' := if i <= k then i - 1 else i, if j <= k then j - 1 else j;
      assert order[j] == s.order[j'] && (i > 0 ==> order[i] == s.order[i'] && i' < j');
      assert order[j] != b;
    }
  }

  lemma HeldAndPinned(s: State, h: nat)
    requires Shape(s) && Counted(s) && h < |s.uses| && s.uses[h].Using? && s.pins[s.uses[h].b] > 0
    ensures s.bufs[s.uses[h].b].refcnt > 1
  {
    UsersPositive(s.uses, h, s.uses[h].b);
  }

  lemma StepKeeps(s: State, step: Step, s': State)
    requires Inv(s) && Next(s, step, s')
    ensures Inv(s')
  {
    hide Enabled, After, Counted, Unique, Locks, Recency, Shape;
    StepShape(s, step);
    StepCounted(s, step);
    StepUnique(s, step);
    StepLocks(s, step);
    StepRecency(s, step);
  }

  lemma InitEstablishes(s: State)
    requires Init(s)
    ensures Inv(s) && Agrees(s)
  {
    forall b | 0 <= b < NBUF ensures Users(s.uses, b) == 0 {
      NoneUse(s.uses, b);
    }
  }

  lemma {:induction false} NoneUse(uses: seq<Use>, b: nat)
    requires forall h :: 0 <= h < |uses| ==> uses[h].Idle?
    ensures Users(uses, b) == 0
  {
    if uses != [] {
      NoneUse(uses[..|uses| - 1], b);
    }
  }

  // ---------- runs ----------

  /** run[i] becomes run[i + 1] by steps[i]. */
  ghost predicate IsRun(run: seq<State>, steps: seq<Step>) {
    && |run| == |steps| + 1 && Init(run[0])
    && forall i, j :: 0 <= i && j == i + 1 < |run| ==> Next(run[i], steps[i], run[j])
  }

  lemma {:induction false} RunKeeps(run: seq<State>, steps: seq<Step>, n: nat)
    requires IsRun(run, steps) && n < |run|
    ensures Inv(run[n])
  {
    if n == 0 {
      InitEstablishes(run[0]);
    } else {
      RunKeeps(run, steps, n - 1);
      assert Next(run[n - 1], steps[n - 1], run[n]);
      StepKeeps(run[n - 1], steps[n - 1], run[n]);
    }
  }

  ghost predicate AllGets(steps: seq<Step>, devices: set<nat>) {
    forall i :: 0 <= i < |steps| && steps[i].Get? ==> steps[i].dev in devices
  }

  lemma {:induction false} RunAgrees(run: seq<State>, steps: seq<Step>, n: nat, d: nat)
    requires IsRun(run, steps) && n < |run| && AllGets(steps, {d})
    ensures Inv(run[n]) && Agrees(run[n]) && OneDevice(run[n], d)
  {
    hide Agrees, Counted, Unique, Locks, Recency, Enabled, After;
    if n == 0 {
      InitEstablishes(run[0]);
    } else {
      RunAgrees(run, steps, n - 1, d);
      RunKeeps(run, steps, n);
      assert Next(run[n - 1], steps[n - 1], run[n]);
      StepAgrees(run[n - 1], steps[n - 1], d);
    }
  }

  /** steps[i] is bget for the block, steps[n] the end of bread, and between them h only takes the lock. */
  ghost predicate IsBread(steps: seq<Step>, i: nat, n: nat, h: nat, dev: nat, blockno: nat) {
    && i < n < |steps| && steps[i] == Get(h, dev, blockno) && steps[n] == Fill(h)
    && forall j :: i < j < n && steps[j].h == h ==> steps[j].Lock?
  }

  /** Handle h has the buffer labelled with the block. */
  ghost predicate Labelled(s: State, h: nat, dev: nat, blockno: nat) {
    && h < |s.uses| && !s.uses[h].Idle? && s.uses[h].b < |s.bufs|
    && var buf := s.bufs[s.uses[h].b];
    buf.dev == dev && buf.blockno == blockno
  }

  lemma StepLabelled(s: State, step: Step, h: nat, dev: nat, blockno: nat)
    requires Inv(s) && Enabled(s, step) && Labelled(s, h, dev, blockno) && (step.h == h ==> step.Lock? || step.Fill?)
    ensures Labelled(After(s, step), h, dev, blockno)
  {
    hide Shape, Locks, Recency, Counted, ToFront, Stored;
    StepFrame(s, step);
    NoUsers(s, s.uses[h].b);
  }

  lemma {:induction false} LabelKept(run: seq<State>, steps: seq<Step>, i: nat, n: nat, h: nat, dev: nat, blockno: nat,
                                     m: nat)
    requires IsRun(run, steps) && IsBread(steps, i, n, h, dev, blockno) && i < m <= n + 1
    ensures Labelled(run[m], h, dev, blockno)
  {
    hide Enabled, After, Inv, Labelled;
    RunKeeps(run, steps, m - 1);
    assert Next(run[m - 1], steps[m - 1], run[m]);
    if m == i + 1 {
      GetLabels(run[i], h, dev, blockno);
    } else {
      LabelKept(run, steps, i, n, h, dev, blockno, m - 1);
      StepLabelled(run[m - 1], steps[m - 1], h, dev, blockno);
    }
  }

  lemma GetLabels(s: State, h: nat, dev: nat, blockno: nat)
    requires Shape(s) && Enabled(s, Get(h, dev, blockno))
    ensures Labelled(After(s, Get(h, dev, blockno)), h, dev, blockno)
  {
    hide Shape;
    StepFrame(s, Get(h, dev, blockno));
  }

  /** The handle's buffer holds what was last logged or written for the block. */
  ghost predicate HoldsContents(s: State, h: nat, dev: nat, blockno: nat) {
    && Labelled(s, h, dev, blockno) && s.uses[h].Using? && s.bufs[s.uses[h].b].valid
    && blockno < |s.contents| && s.bufs[s.uses[h].b].data == s.contents[blockno]
  }

  /**
   In every run over one device, bread of a block returns the buffer of that block, holding
   what was last logged or written for it.
   */
  lemma BreadAgrees(run: seq<State>, steps: seq<Step>, i: nat, n: nat, h: nat, dev: nat, blockno: nat)
    requires IsRun(run, steps) && AllGets(steps, {dev}) && IsBread(steps, i, n, h, dev, blockno)
    ensures HoldsContents(run[n + 1], h, dev, blockno)
  {
    assert steps[i].dev != 0 by { GetsDevice(run, steps, i); }
    RunAgrees(run, steps, n, dev);
    LabelKept(run, steps, i, n, h, dev, blockno, n);
    assert Next(run[n], steps[n], run[n + 1]);
    FillAgrees(run[n], h, dev, blockno);
  }

  lemma GetsDevice(run: seq<State>, steps: seq<Step>, i: nat)
    requires IsRun(run, steps) && i < |steps| && steps[i].Get?
    ensures steps[i].dev != 0
  {
    assert Next(run[i], steps[i], run[i + 1]);
  }

  lemma FillAgrees(s: State, h: nat, dev: nat, blockno: nat)
    requires Inv(s) && Agrees(s) && OneDevice(s, dev) && Labelled(s, h, dev, blockno) && Enabled(s, Fill(h)) && dev != 0
    ensures HoldsContents(After(s, Fill(h)), h, dev, blockno)
  {
    hide Counted, Recency;
    var b := s.uses[h].b;
    if s.bufs[b].valid {
      OnlyHolder(s, h, b);
      assert Stored(s, b);
    } else {
      NotElsewhere(s, b, blockno, dev);
    }
  }

  lemma OnlyHolder(s: State, h: nat, b: nat)
    requires Shape(s) && Locks(s) && h < |s.uses| && s.uses[h] == Locked(b) && b < NBUF
    ensures !InUse(s, b)
  {
    if InUse(s, b) {
      var g :| 0 <= g < |s.uses| && s.uses[g] == Using(b);
      assert Holds(s.uses[g], b) && Holds(s.uses[h], b);
    }
  }

  lemma NotElsewhere(s: State, b: nat, k: nat, d: nat)
    requires Shape(s) && Unique(s) && Agrees(s) && OneDevice(s, d)
    requires b < NBUF && !s.bufs[b].valid && s.bufs[b].dev == d != 0 && s.bufs[b].blockno == k < |s.disk|
    ensures s.disk[k] == s.contents[k]
  {
  }

  // ---------- more than one device ----------

  /** In every run that asks for blocks of these devices only, bread returns the contents of its block. */
  ghost predicate ReadsAgree(devices: set<nat>) {
    forall run: seq<State>, steps: seq<Step>, i: nat, n: nat, h: nat, dev: nat, blockno: nat
      | IsRun(run, steps) && AllGets(steps, devices) && IsBread(steps, i, n, h, dev, blockno) ::
      HoldsContents(run[n + 1], h, dev, blockno)
  }

  /** The driver ignores the device, so bread agrees with the block map exactly if one device is in use. */
  lemma AgreesIffOneDevice(devices: set<nat>)
    ensures ReadsAgree(devices) <==> forall d, e :: d in devices && e in devices && d != 0 && e != 0 ==> d == e
  {
    if d, e :| d in devices && e in devices && d != 0 && e != 0 && d != e {
      var run, steps := StaleRun(d, e);
      assert AllGets(steps, devices) && IsBread(steps, 5, 7, 1, e, 0) && !HoldsContents(run[8], 1, e, 0);
    } else {
      forall run: seq<State>, steps: seq<Step>, i: nat, n: nat, h: nat, dev: nat, blockno: nat
        | IsRun(run, steps) && AllGets(steps, devices) && IsBread(steps, i, n, h, dev, blockno)
        ensures HoldsContents(run[n + 1], h, dev, blockno)
      {
        forall j | 0 <= j < |steps| && steps[j].Get? ensures steps[j].dev == dev {
          GetsDevice(run, steps, i);
          GetsDevice(run, steps, j);
        }
        BreadAgrees(run, steps, i, n, h, dev, blockno);
      }
    }
  }

  ghost predicate Reaches(run: seq<State>, steps: seq<Step>, s: State) {
    IsRun(run, steps) && run[|steps|] == s && Shape(s)
  }

  lemma Extend(run: seq<State>, steps: seq<Step>, s: State, step: Step)
    requires Reaches(run, steps, s) && Enabled(s, step)
    ensures Reaches(run + [After(s, step)], steps + [step], After(s, step))
  {
    StepShape(s, step);
    hide Enabled, After, Shape, Init;
    var run', steps' := run + [After(s, step)], steps + [step];
    forall i, j | 0 <= i && j == i + 1 < |run'| ensures Next(run'[i], steps'[i], run'[j]) {
      if i < |steps| {
        assert run'[i] == run[i] && steps'[i] == steps[i] && run'[j] == run[j];
      }
    }
  }

  const UNUSED := Buf(0, 0, 0, false, false, [])

  /** A disk of one block, and two handles. */
  function Booted(): State {
    State(seq(NBUF, i => UNUSED), seq(NBUF, i => if 0 <= i < NBUF then NBUF - 1 - i else 0), [Idle, Idle], [[]], [[]],
          seq(NBUF, i => 0), seq(NBUF, i => i), seq(NBUF, i => i), NBUF)
  }

  lemma BootedInit()
    ensures Init(Booted())
  {
    var s := Booted();
    forall b | 0 <= b < NBUF ensures b in s.order {
      assert s.order[NBUF - 1 - b] == b;
    }
  }

  /** Handle 0 has changed and logged block 0 of device d; the disk has the old contents. */
  ghost predicate LoggedOnly(s: State, d: nat, b: nat) {
    && Shape(s) && b < NBUF && s.uses == [Using(b), Idle] && s.disk == [[]] && s.contents == [[1]]
    && s.bufs[b] == Buf(d, 0, 2, true, true, [1])
    && forall c :: 0 <= c < NBUF && c != b ==> s.bufs[c] == UNUSED
  }

  lemma LockAndFill(run: seq<State>, steps: seq<Step>, s: State, h: nat, b: nat)
    returns (run': seq<State>, s': State)
    requires Reaches(run, steps, s) && h < |s.uses| && s.uses[h] == Waiting(b) && b < NBUF
    requires s.bufs[b].dev != 0 && s.bufs[b].blockno < |s.disk| && !s.bufs[b].locked && !s.bufs[b].valid
    ensures Reaches(run', steps + [Lock(h)] + [Fill(h)], s')
    ensures
      var buf := s.bufs[b].(locked := true, valid := true, data := s.disk[s.bufs[b].blockno]);
      s' == WithBuf(s, b, buf, h, Using(b))
  {
    hide Init, IsRun, Shape;
    var s1 := After(s, Lock(h));
    Extend(run, steps, s, Lock(h));
    s' := After(s1, Fill(h));
    Extend(run + [s1], steps + [Lock(h)], s1, Fill(h));
    run' := run + [s1] + [s'];
  }

  lemma ChangeAndLog(run: seq<State>, steps: seq<Step>, s: State, h: nat, b: nat, data: Data)
    returns (run': seq<State>, s': State)
    requires Reaches(run, steps, s) && h < |s.uses| && s.uses[h] == Using(b) && b < NBUF
    requires s.bufs[b].dev != 0 && s.bufs[b].blockno < |s.disk|
    ensures Reaches(run', steps + [Change(h, data)] + [Log(h, true)], s')
    ensures
      var buf := s.bufs[b].(data := data, refcnt := s.bufs[b].refcnt + 1);
      && s'.bufs == s.bufs[b := buf] && s'.uses == s.uses && s'.disk == s.disk
      && s'.contents == s.contents[buf.blockno := data]
  {
    hide Init, IsRun, Shape;
    var s1 := After(s, Change(h, data));
    Extend(run, steps, s, Change(h, data));
    s' := After(s1, Log(h, true));
    Extend(run + [s1], steps + [Change(h, data)], s1, Log(h, true));
    run' := run + [s1] + [s'];
  }

  lemma LogRun(d: nat) returns (run: seq<State>, s: State, b: nat)
    requires d != 0
    ensures LoggedOnly(s, d, b)
    ensures Reaches(run, [Get(0, d, 0), Lock(0), Fill(0), Change(0, [1]), Log(0, true)], s)
  {
    hide Init, IsRun, After, Enabled;
    BootedInit();
    var s1, s3;
    s1, b := FirstGet(d);
    assert Reaches([Booted()], [], Booted()) by { OneState(); }
    Extend([Booted()], [], Booted(), Get(0, d, 0));
    run, s3 := LockAndFill([Booted()] + [s1], [] + [Get(0, d, 0)], s1, 0, b);
    run, s := ChangeAndLog(run, [] + [Get(0, d, 0)] + [Lock(0)] + [Fill(0)], s3, 0, b, [1]);
    assert [] + [Get(0, d, 0)] + [Lock(0)] + [Fill(0)] + [Change(0, [1])] + [Log(0, true)]
        == [Get(0, d, 0), Lock(0), Fill(0), Change(0, [1]), Log(0, true)];
  }

  lemma OneState()
    ensures Reaches([Booted()], [], Booted())
  {
    BootedInit();
  }

  lemma FirstGet(d: nat) returns (s: State, b: nat)
    requires d != 0
    ensures Shape(Booted()) && Enabled(Booted(), Get(0, d, 0)) && s == After(Booted(), Get(0, d, 0))
    ensures b < NBUF && s == WithBuf(Booted(), b, Buf(d, 0, 1, false, false, []), 0, Waiting(b))
  {
    BootedInit();
    var s0 := Booted();
    assert s0.bufs[s0.order[0]].refcnt == 0;
    assert Chosen(s0.bufs, s0.order, d, 0) in s0.order;
    s, b := After(s0, Get(0, d, 0)), Chosen(s0.bufs, s0.order, d, 0);
  }

  /** Reading the block through another device misses what was logged through the first. */
  lemma StaleRun(d: nat, e: nat) returns (run: seq<State>, steps: seq<Step>)
    requires d != 0 && e != 0 && d != e
    ensures IsRun(run, steps) && |steps| == 8 && AllGets(steps, {d, e})
    ensures IsBread(steps, 5, 7, 1, e, 0) && !HoldsContents(run[8], 1, e, 0)
    ensures steps == [Get(0, d, 0), Lock(0), Fill(0), Change(0, [1]), Log(0, true), Get(1, e, 0), Lock(1), Fill(1)]
    ensures 1 < |run[8].uses| && run[8].uses[1].Using? && run[8].uses[1].b < |run[8].bufs|
    ensures run[8].bufs[run[8].uses[1].b].data == []
  {
    hide Init, Next, Shape, Enabled, After;
    var r5, s5, b := LogRun(d);
    var t5 := [Get(0, d, 0), Lock(0), Fill(0), Change(0, [1]), Log(0, true)];
    var s6, c := OtherGet(s5, d, e, b);
    Extend(r5, t5, s5, Get(1, e, 0));
    var s8;
    run, s8 := LockAndFill(r5 + [s6], t5 + [Get(1, e, 0)], s6, 1, c);
    steps := t5 + [Get(1, e, 0)] + [Lock(1)] + [Fill(1)];
  }

  lemma OtherGet(s: State, d: nat, e: nat, b: nat) returns (s': State, c: nat)
    requires LoggedOnly(s, d, b) && d != 0 && e != 0 && d != e
    ensures Enabled(s, Get(1, e, 0)) && s' == After(s, Get(1, e, 0))
    ensures c < NBUF && c != b && s' == WithBuf(s, c, Buf(e, 0, 1, false, false, []), 1, Waiting(c))
  {
    var free := if b == 0 then 1 else 0;
    assert free in s.order && s.bufs[free].refcnt == 0;
    assert Chosen(s.bufs, s.order, e, 0) in s.order;
    s', c := After(s, Get(1, e, 0)), Chosen(s.bufs, s.order, e, 0);
  }

  /** In every run, no step gives a pinned or used buffer to another block. */
  lemma NeverRecycled(run: seq<State>, steps: seq<Step>, n: nat, b: nat)
    requires IsRun(run, steps) && n < |steps| && b < NBUF
    ensures
      var s, s' := run[n], run[n + 1];
      && |s.bufs| == NBUF == |s.pins| && |s'.bufs| == NBUF
      && (s.pins[b] > 0 || (exists h :: 0 <= h < |s.uses| && On(s.uses[h], b)) ==>
            s'.bufs[b].dev == s.bufs[b].dev && s'.bufs[b].blockno == s.bufs[b].blockno)
  {
    hide Locks, Recency, Counted, ToFront, Stored;
    var s := run[n];
    RunKeeps(run, steps, n);
    assert Next(s, steps[n], run[n + 1]);
    StepFrame(s, steps[n]);
    NoUsers(s, b);
  }

  /** In every run, at most one buffer holds a block of a device, however many devices are in use. */
  lemma AtMostOneBuffer(run: seq<State>, steps: seq<Step>, n: nat, b: nat, c: nat)
    requires IsRun(run, steps) && n < |run| && b < NBUF && c < NBUF && b != c
    ensures
      var bufs := run[n].bufs;
      |bufs| == NBUF && (bufs[b].dev == bufs[c].dev != 0 ==> bufs[b].blockno != bufs[c].blockno)
  {
    RunKeeps(run, steps, n);
    hide Locks, Recency, Counted;
  }

  /** In every run, bget recycles the buffer that brelse let go of longest ago, among those nobody refers to. */
  lemma LeastRecentlyReleased(run: seq<State>, steps: seq<Step>, n: nat, c: nat)
    requires IsRun(run, steps) && n < |run| && c < NBUF
    ensures
      var s := run[n];
      && Shape(s)
      && var v := Victim(s.bufs, s.order);
      && (v != -1 && s.bufs[c].refcnt == 0 ==> s.released[v] <= s.released[c])
      && (v == -1 ==> s.bufs[c].refcnt > 0)
  {
    hide Locks, Unique, Counted;
    var s := run[n];
    RunKeeps(run, steps, n);
    assert c in s.order;
    var j :| 0 <= j < NBUF && s.order[j] == c;
    var v := Victim(s.bufs, s.order);
    if v != -1 {
      var i :| 0 <= i < NBUF && s.order[i] == v && forall j :: i < j < NBUF ==> s.bufs[s.order[j]].refcnt > 0;
    }
  }
}
