/**
 The redo log of the file system at the granularity of single block writes.

 `Log` performs commit and recovery in place on a disk and records the writes it issues.
 A crash may cut any such list of writes short. The main results say what recovery makes
 of the home blocks after any number of commits, crashes and interrupted recoveries.
 */
module RedoLog {

  import opened Params

  const WORDS := 256  // ints per block

  type Block = b: seq<int> | |b| == WORDS witness seq(WORDS, i => 0)
  type Disk = seq<Block>

  /** The log area: a header block at `start`, then `size - 1` blocks for data. */
  datatype Layout = Layout(start: nat, size: nat) {

    predicate Inside(b: int) {
      start <= b < start + size
    }

    predicate Fits(d: Disk) {
      0 < size && start + size <= |d|
    }

    /** A list of home blocks that the log can carry. */
    ghost predicate Loggable(d: Disk, blocks: seq<int>) {
      && |blocks| <= LOGSIZE && |blocks| < size
      && (forall i :: 0 <= i < |blocks| ==> 0 <= blocks[i] < |d| && !Inside(blocks[i]))
      && Distinct(blocks)
    }
  }

  // ---------- the header block ----------

  /** The header block after the entries for `blocks` were written over it. */
  function EncodeHead(prior: Block, blocks: seq<int>): Block
    requires |blocks| <= LOGSIZE
  {
    [|blocks|] + blocks + prior[1 + |blocks|..]
  }

  /** The block numbers recorded in a header block. */
  function DecodeHead(b: Block): (blocks: seq<int>)
    requires 0 <= b[0] <= LOGSIZE
  {
    b[1..1 + b[0]]
  }

  lemma HeadRoundTrip(prior: Block, blocks: seq<int>)
    requires |blocks| <= LOGSIZE
    ensures EncodeHead(prior, blocks)[0] == |blocks|
    ensures DecodeHead(EncodeHead(prior, blocks)) == blocks
  {
  }

  /** The block numbers in the header on disk. */
  function Head(y: Layout, d: Disk): (blocks: seq<int>)
    requires y.Fits(d) && 0 <= d[y.start][0] <= LOGSIZE
  {
    DecodeHead(d[y.start])
  }

  /** The header on disk names a list of blocks that the log can carry. */
  ghost predicate WellFormed(y: Layout, d: Disk) {
    y.Fits(d) && 0 <= d[y.start][0] <= LOGSIZE && y.Loggable(d, Head(y, d))
  }

  ghost predicate Clean(y: Layout, d: Disk) {
    WellFormed(y, d) && Head(y, d) == []
  }

  // ---------- writes ----------

  datatype Write = Write(block: int, data: Block)

  /** The disk after one write; there is nothing to write to beyond its end. */
  function Put(d: Disk, w: Write): (r: Disk)
    ensures |r| == |d|
  {
    if 0 <= w.block < |d| then d[w.block := w.data] else d
  }

  function Apply(d: Disk, ws: seq<Write>): (r: Disk)
    ensures |r| == |d|
  {
    if ws == [] then d else Put(Apply(d, ws[..|ws| - 1]), ws[|ws| - 1])
  }

  lemma {:induction false} ApplyConcat(d: Disk, u: seq<Write>, v: seq<Write>)
    ensures Apply(d, u + v) == Apply(Apply(d, u), v)
  {
    if v == [] {
      assert u + v == u;
    } else {
      var last := |v| - 1;
      ApplyConcat(d, u, v[..last]);
      assert (u + v)[..|u + v| - 1] == u + v[..last];
    }
  }

  /** The writes that put data[i] into blocks[i], in order. */
  function Puts(blocks: seq<int>, data: seq<Block>): (ws: seq<Write>)
    requires |blocks| == |data|
    ensures |ws| == |blocks|
    ensures forall i :: 0 <= i < |ws| ==> ws[i] == Write(blocks[i], data[i])
  {
    seq(|blocks|, i requires 0 <= i < |blocks| => Write(blocks[i], data[i]))
  }

  ghost predicate Listed(blocks: seq<int>, k: nat, b: int)
    requires k <= |blocks|
  {
    exists i :: 0 <= i < k && blocks[i] == b
  }

  ghost predicate Distinct(blocks: seq<int>) {
    forall i, j :: 0 <= i < j < |blocks| ==> blocks[i] != blocks[j]
  }

  /** What a prefix of such writes does when the targets are distinct. */
  lemma {:induction false} ApplyPuts(d: Disk, blocks: seq<int>, data: seq<Block>, k: nat)
    requires |blocks| == |data| && k <= |blocks|
    requires forall i :: 0 <= i < |blocks| ==> 0 <= blocks[i] < |d|
    requires Distinct(blocks)
    ensures forall i :: 0 <= i < k ==> Apply(d, Puts(blocks, data)[..k])[blocks[i]] == data[i]
    ensures forall b :: 0 <= b < |d| && !Listed(blocks, k, b) ==> Apply(d, Puts(blocks, data)[..k])[b] == d[b]
  {
    var ws := Puts(blocks, data);
    if k > 0 {
      ApplyPuts(d, blocks, data, k - 1);
      assert ws[..k][..k - 1] == ws[..k - 1];
    } else {
      assert ws[..k] == [];
    }
  }

  // ---------- commit and recovery as lists of writes ----------

  /** The block numbers of the first n data blocks of the log. */
  function Slots(y: Layout, n: nat): (s: seq<int>)
    ensures |s| == n && forall i :: 0 <= i < n ==> s[i] == y.start + 1 + i
  {
    seq(n, i => y.start + 1 + i)
  }

  function SlotData(y: Layout, d: Disk, n: nat): (s: seq<Block>)
    requires y.start + 1 + n <= |d|
    ensures |s| == n && forall i :: 0 <= i < n ==> s[i] == d[y.start + 1 + i]
  {
    d[y.start + 1..y.start + 1 + n]
  }

  /** What one transaction wants to put into which home blocks. */
  datatype Txn = Txn(blocks: seq<int>, data: seq<Block>)

  ghost predicate ValidTxn(y: Layout, d: Disk, t: Txn) {
    y.Loggable(d, t.blocks) && |t.data| == |t.blocks|
  }

  function HeadWrite(y: Layout, d: Disk, blocks: seq<int>): Write
    requires y.Fits(d) && |blocks| <= LOGSIZE
  {
    Write(y.start, EncodeHead(d[y.start], blocks))
  }

  function ClearWrite(y: Layout, d: Disk, blocks: seq<int>): Write
    requires y.Fits(d) && |blocks| <= LOGSIZE
  {
    Write(y.start, EncodeHead(EncodeHead(d[y.start], blocks), []))
  }

  /** The four phases of a commit: log the data, write the header, install, clear the header. */
  function CommitWrites(y: Layout, d: Disk, t: Txn): seq<Write>
    requires y.Fits(d) && |t.blocks| <= LOGSIZE && |t.data| == |t.blocks|
  {
    if t.blocks == [] then []
    else
      Puts(Slots(y, |t.blocks|), t.data) + [HeadWrite(y, d, t.blocks)]
      + Puts(t.blocks, t.data) + [ClearWrite(y, d, t.blocks)]
  }

  /** Recovery copies every logged block home and clears the header. */
  function RecoveryWrites(y: Layout, d: Disk): seq<Write>
    requires y.Fits(d) && 0 <= d[y.start][0] <= LOGSIZE && |Head(y, d)| < y.size
  {
    var blocks := Head(y, d);
    Puts(blocks, SlotData(y, d, |blocks|)) + [HeadWrite(y, d, [])]
  }

  /** What recovery would leave in home block b. */
  ghost function View(y: Layout, d: Disk, b: int): Block
    requires WellFormed(y, d) && 0 <= b < |d|
  {
    var blocks := Head(y, d);
    if Listed(blocks, |blocks|, b) then
      var i :| 0 <= i < |blocks| && blocks[i] == b;
      d[y.start + 1 + i]
    else d[b]
  }

  ghost predicate SameView(y: Layout, d: Disk, d': Disk) {
    && WellFormed(y, d) && WellFormed(y, d') && |d'| == |d|
    && forall b :: 0 <= b < |d| && !y.Inside(b) ==> View(y, d', b) == View(y, d, b)
  }

  /** The view is determined by what is logged and by the blocks that are not. */
  lemma ViewIs(y: Layout, d: Disk, blocks: seq<int>, data: seq<Block>, rest: Disk)
    requires WellFormed(y, d) && Head(y, d) == blocks && |data| == |blocks| && |rest| == |d|
    requires forall i :: 0 <= i < |blocks| ==> d[y.start + 1 + i] == data[i]
    requires forall b :: 0 <= b < |d| && !y.Inside(b) && !Listed(blocks, |blocks|, b) ==> d[b] == rest[b]
    ensures forall i :: 0 <= i < |blocks| ==> View(y, d, blocks[i]) == data[i]
    ensures forall b :: 0 <= b < |d| && !y.Inside(b) && !Listed(blocks, |blocks|, b) ==> View(y, d, b) == rest[b]
  {
  }

  // ---------- every prefix of a commit ----------

  /** The home blocks as the transaction alone would leave them. */
  ghost predicate Committed(y: Layout, d: Disk, t: Txn, d': Disk)
    requires WellFormed(y, d) && ValidTxn(y, d, t)
  {
    && WellFormed(y, d') && |d'| == |d|
    && (forall i :: 0 <= i < |t.blocks| ==> View(y, d', t.blocks[i]) == t.data[i])
    && (forall b :: 0 <= b < |d| && !y.Inside(b) && !Listed(t.blocks, |t.blocks|, b) ==>
          View(y, d', b) == View(y, d, b))
  }

  /** While the data goes to the log, nothing changes for recovery. */
  lemma LoggingPrefix(y: Layout, d: Disk, t: Txn, k: nat)
    requires Clean(y, d) && ValidTxn(y, d, t) && k <= |t.blocks|
    ensures SameView(y, d, Apply(d, Puts(Slots(y, |t.blocks|), t.data)[..k]))
    ensures Clean(y, Apply(d, Puts(Slots(y, |t.blocks|), t.data)[..k]))
  {
    var d' := Apply(d, Puts(Slots(y, |t.blocks|), t.data)[..k]);
    ApplyPuts(d, Slots(y, |t.blocks|), t.data, k);
    assert d'[y.start] == d[y.start];
    ViewIs(y, d', [], [], d);
    ViewIs(y, d, [], [], d);
  }

  /** The disk when the header block holds `hb` and the first k blocks are installed. */
  function Installed(y: Layout, d: Disk, t: Txn, hb: Block, k: nat): (r: Disk)
    requires y.Fits(d) && |t.blocks| < y.size && |t.data| == |t.blocks| && k <= |t.blocks|
    ensures |r| == |d|
  {
    Apply(Apply(d, Puts(Slots(y, |t.blocks|), t.data))[y.start := hb], Puts(t.blocks, t.data)[..k])
  }

  lemma HeadedContents(y: Layout, d: Disk, t: Txn, hb: Block)
    requires y.Fits(d) && ValidTxn(y, d, t)
    ensures Installed(y, d, t, hb, 0)[y.start] == hb
    ensures forall i :: 0 <= i < |t.blocks| ==> Installed(y, d, t, hb, 0)[y.start + 1 + i] == t.data[i]
    ensures forall b :: 0 <= b < |d| && !y.Inside(b) ==> Installed(y, d, t, hb, 0)[b] == d[b]
  {
    var n := |t.blocks|;
    var slots := Slots(y, n);
    assert Puts(slots, t.data)[..n] == Puts(slots, t.data);
    ApplyPuts(d, slots, t.data, n);
    var logged := Apply(d, Puts(slots, t.data));
    forall i | 0 <= i < n ensures logged[y.start + 1 + i] == t.data[i] {
      assert logged[slots[i]] == t.data[i];
    }
    assert Puts(t.blocks, t.data)[..0] == [];
  }

  lemma InstalledContents(y: Layout, d: Disk, t: Txn, hb: Block, k: nat)
    requires y.Fits(d) && ValidTxn(y, d, t) && k <= |t.blocks|
    ensures Installed(y, d, t, hb, k)[y.start] == hb
    ensures forall i :: 0 <= i < |t.blocks| ==> Installed(y, d, t, hb, k)[y.start + 1 + i] == t.data[i]
    ensures forall i :: 0 <= i < k ==> Installed(y, d, t, hb, k)[t.blocks[i]] == t.data[i]
    ensures forall b :: 0 <= b < |d| && !y.Inside(b) && !Listed(t.blocks, |t.blocks|, b) ==>
      Installed(y, d, t, hb, k)[b] == d[b]
  {
    HeadedContents(y, d, t, hb);
    var headed := Installed(y, d, t, hb, 0);
    assert Puts(t.blocks, t.data)[..0] == [];
    ApplyPuts(headed, t.blocks, t.data, k);
    forall b | y.Inside(b) ensures !Listed(t.blocks, k, b) {}
  }

  /** From the header write on, recovery yields the transaction, however far the installation got. */
  lemma InstallingPrefix(y: Layout, d: Disk, t: Txn, k: nat)
    requires Clean(y, d) && ValidTxn(y, d, t) && k <= |t.blocks|
    ensures Committed(y, d, t, Installed(y, d, t, HeadWrite(y, d, t.blocks).data, k))
  {
    var d' := Installed(y, d, t, HeadWrite(y, d, t.blocks).data, k);
    InstalledContents(y, d, t, HeadWrite(y, d, t.blocks).data, k);
    HeadRoundTrip(d[y.start], t.blocks);
    ViewIs(y, d', t.blocks, t.data, d);
    ViewIs(y, d, [], [], d);
  }

  /** After the header has been cleared the home blocks themselves carry the transaction. */
  lemma ClearedCommit(y: Layout, d: Disk, t: Txn)
    requires Clean(y, d) && ValidTxn(y, d, t)
    ensures
      var home := Installed(y, d, t, HeadWrite(y, d, t.blocks).data, |t.blocks|);
      var d' := home[y.start := ClearWrite(y, d, t.blocks).data];
      Committed(y, d, t, d') && Clean(y, d')
  {
    InstalledContents(y, d, t, HeadWrite(y, d, t.blocks).data, |t.blocks|);
    var home := Installed(y, d, t, HeadWrite(y, d, t.blocks).data, |t.blocks|);
    var d' := home[y.start := ClearWrite(y, d, t.blocks).data];
    HeadRoundTrip(EncodeHead(d[y.start], t.blocks), []);
    ViewIs(y, d', [], [], d');
    ViewIs(y, d, [], [], d);
  }

  /** The disk in the logging phase of a commit. */
  lemma LoggingShape(y: Layout, d: Disk, t: Txn, k: nat)
    requires y.Fits(d) && ValidTxn(y, d, t) && k <= |t.blocks|
    ensures Apply(d, CommitWrites(y, d, t)[..k]) == Apply(d, Puts(Slots(y, |t.blocks|), t.data)[..k])
  {
    assert CommitWrites(y, d, t)[..k] == Puts(Slots(y, |t.blocks|), t.data)[..k];
  }

  /** The disk in the installing phase of a commit. */
  lemma InstallingShape(y: Layout, d: Disk, t: Txn, k: nat)
    requires y.Fits(d) && ValidTxn(y, d, t) && 0 < |t.blocks| && k <= |t.blocks|
    ensures Apply(d, CommitWrites(y, d, t)[..|t.blocks| + 1 + k])
            == Installed(y, d, t, HeadWrite(y, d, t.blocks).data, k)
  {
    var log, home := Puts(Slots(y, |t.blocks|), t.data), Puts(t.blocks, t.data);
    var head := log + [HeadWrite(y, d, t.blocks)];
    assert head[..|log|] == log;
    assert CommitWrites(y, d, t)[..|log| + 1 + k] == head + home[..k];
    ApplyConcat(d, head, home[..k]);
  }

  /** The disk at the end of a commit. */
  lemma FinalShape(y: Layout, d: Disk, t: Txn)
    requires y.Fits(d) && ValidTxn(y, d, t) && 0 < |t.blocks|
    ensures
      var home := Installed(y, d, t, HeadWrite(y, d, t.blocks).data, |t.blocks|);
      Apply(d, CommitWrites(y, d, t)) == home[y.start := ClearWrite(y, d, t.blocks).data]
  {
    InstallingShape(y, d, t, |t.blocks|);
    var ws := CommitWrites(y, d, t);
    assert ws[..|ws| - 1] == ws[..|t.blocks| + 1 + |t.blocks|];
  }

  lemma CommitLength(y: Layout, d: Disk, t: Txn)
    requires y.Fits(d) && ValidTxn(y, d, t)
    ensures |CommitWrites(y, d, t)| == if t.blocks == [] then 0 else 2 * |t.blocks| + 2
  {
  }

  /**
   A commit cut after any number of writes: up to the header write recovery yields the
   blocks as before, from the header write on it yields them with the transaction.
   */
  lemma CommitAtomic(y: Layout, d: Disk, t: Txn, k: nat)
    requires Clean(y, d) && ValidTxn(y, d, t) && k <= |CommitWrites(y, d, t)|
    ensures k <= |t.blocks| ==> SameView(y, d, Apply(d, CommitWrites(y, d, t)[..k]))
    ensures k > |t.blocks| ==> Committed(y, d, t, Apply(d, CommitWrites(y, d, t)[..k]))
    ensures k == |CommitWrites(y, d, t)| ==> Clean(y, Apply(d, CommitWrites(y, d, t)[..k]))
  {
    hide CommitWrites, Apply, Puts, Installed, SameView, Committed, HeadWrite, ClearWrite;
    var n := |t.blocks|;
    CommitLength(y, d, t);
    if k <= n {
      LoggingShape(y, d, t, k);
      LoggingPrefix(y, d, t, k);
    } else if k <= 2 * n + 1 {
      InstallingShape(y, d, t, k - n - 1);
      InstallingPrefix(y, d, t, k - n - 1);
    } else {
      assert CommitWrites(y, d, t)[..k] == CommitWrites(y, d, t);
      FinalShape(y, d, t);
      ClearedCommit(y, d, t);
    }
  }

  /** A transaction without blocks writes nothing and changes nothing. */
  lemma EmptyCommit(y: Layout, d: Disk, t: Txn)
    requires Clean(y, d) && ValidTxn(y, d, t) && t.blocks == []
    ensures Committed(y, d, t, Apply(d, CommitWrites(y, d, t)))
  {
  }

  // ---------- every prefix of a recovery ----------

  /** The disk when the first k of the logged blocks have been copied home. */
  function Copied(y: Layout, d: Disk, blocks: seq<int>, k: nat): (r: Disk)
    requires y.Fits(d) && |blocks| < y.size && k <= |blocks|
    ensures |r| == |d|
  {
    Apply(d, Puts(blocks, SlotData(y, d, |blocks|))[..k])
  }

  lemma CopiedContents(y: Layout, d: Disk, blocks: seq<int>, k: nat)
    requires y.Fits(d) && y.Loggable(d, blocks) && k <= |blocks|
    ensures forall b :: y.Inside(b) ==> Copied(y, d, blocks, k)[b] == d[b]
    ensures forall i :: 0 <= i < k ==> Copied(y, d, blocks, k)[blocks[i]] == d[y.start + 1 + i]
    ensures forall b :: 0 <= b < |d| && !Listed(blocks, |blocks|, b) ==> Copied(y, d, blocks, k)[b] == d[b]
  {
    ApplyPuts(d, blocks, SlotData(y, d, |blocks|), k);
    forall b | y.Inside(b) ensures !Listed(blocks, k, b) {}
  }

  lemma RecoveryInstalls(y: Layout, d: Disk, k: nat)
    requires WellFormed(y, d) && k <= |Head(y, d)|
    ensures SameView(y, d, Copied(y, d, Head(y, d), k))
  {
    var blocks := Head(y, d);
    var data := SlotData(y, d, |blocks|);
    var d' := Copied(y, d, blocks, k);
    CopiedContents(y, d, blocks, k);
    assert d'[y.start] == d[y.start];
    ViewIs(y, d', blocks, data, d);
    ViewIs(y, d, blocks, data, d);
    ViewsAgree(y, d, d', blocks);
  }

  /** Two disks agree on every home block if they agree on the listed and on the other ones. */
  lemma ViewsAgree(y: Layout, d: Disk, d': Disk, blocks: seq<int>)
    requires WellFormed(y, d) && WellFormed(y, d') && |d'| == |d| && y.Loggable(d, blocks)
    requires forall i :: 0 <= i < |blocks| ==> View(y, d', blocks[i]) == View(y, d, blocks[i])
    requires forall b :: 0 <= b < |d| && !y.Inside(b) && !Listed(blocks, |blocks|, b) ==>
      View(y, d', b) == View(y, d, b)
    ensures SameView(y, d, d')
  {
  }

  lemma RecoveryClears(y: Layout, d: Disk)
    requires WellFormed(y, d)
    ensures
      var d' := Copied(y, d, Head(y, d), |Head(y, d)|)[y.start := HeadWrite(y, d, []).data];
      SameView(y, d, d') && Clean(y, d')
  {
    var blocks := Head(y, d);
    var copied := Copied(y, d, blocks, |blocks|);
    var d' := copied[y.start := HeadWrite(y, d, []).data];
    HeadRoundTrip(d[y.start], []);
    CopiedContents(y, d, blocks, |blocks|);
    ViewIs(y, d, blocks, SlotData(y, d, |blocks|), d);
    forall b | 0 <= b < |d| && !y.Inside(b)
      ensures View(y, d', b) == View(y, d, b)
    {
      if Listed(blocks, |blocks|, b) {
        var i :| 0 <= i < |blocks| && blocks[i] == b;
        assert copied[blocks[i]] == SlotData(y, d, |blocks|)[i];
      }
    }
  }

  /** Cutting a recovery short after any number of writes does not change what the next one yields. */
  lemma RecoveryIdempotent(y: Layout, d: Disk, k: nat)
    requires WellFormed(y, d) && k <= |RecoveryWrites(y, d)|
    ensures SameView(y, d, Apply(d, RecoveryWrites(y, d)[..k]))
    ensures k == |RecoveryWrites(y, d)| ==> Clean(y, Apply(d, RecoveryWrites(y, d)[..k]))
  {
    var blocks, data := Head(y, d), SlotData(y, d, |Head(y, d)|);
    var n, ws := |blocks|, RecoveryWrites(y, d);
    if k <= n {
      assert ws[..k] == Puts(blocks, data)[..k];
      RecoveryInstalls(y, d, k);
    } else {
      assert ws[..k] == ws && ws[..k][..n] == Puts(blocks, data)[..n];
      RecoveryInstalls(y, d, n);
      RecoveryClears(y, d);
    }
  }
}
