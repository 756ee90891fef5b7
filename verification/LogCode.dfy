/**
 Commit and recovery as the kernel runs them: loops that update the disk block by block.
 Each method is proved to issue exactly the list of writes that the crash argument is about.
 */
module LogCode {
  import opened Params
  import opened RedoLog

  function Cached(cache: map<int, Block>, blocks: seq<int>): (data: seq<Block>)
    requires forall i :: 0 <= i < |blocks| ==> blocks[i] in cache
    ensures |data| == |blocks| && forall i :: 0 <= i < |blocks| ==> data[i] == cache[blocks[i]]
  {
    seq(|blocks|, i requires 0 <= i < |blocks| => cache[blocks[i]])
  }

  lemma CopiedNone(y: Layout, d: Disk, blocks: seq<int>)
    requires y.Fits(d) && |blocks| < y.size
    ensures Copied(y, d, blocks, 0) == d
  {
    assert Puts(blocks, SlotData(y, d, |blocks|))[..0] == [];
  }

  /** One more block copied home is one more write. */
  lemma CopiedStep(y: Layout, d: Disk, blocks: seq<int>, k: nat)
    requires y.Fits(d) && y.Loggable(d, blocks) && k < |blocks|
    ensures Copied(y, d, blocks, k)[y.start + 1 + k] == d[y.start + 1 + k]
    ensures Copied(y, d, blocks, k + 1) == Copied(y, d, blocks, k)[blocks[k] := d[y.start + 1 + k]]
  {
    CopiedContents(y, d, blocks, k);
    assert y.Inside(y.start + 1 + k);
    var ws := Puts(blocks, SlotData(y, d, |blocks|));
    assert ws[..k + 1][..k] == ws[..k];
  }

  /** After the log blocks and the header have been written. */
  lemma LoggedPhase(y: Layout, d: Disk, t: Txn)
    requires Clean(y, d) && ValidTxn(y, d, t)
    ensures
      var logged := Apply(d, Puts(Slots(y, |t.blocks|), t.data));
      var headed := logged[y.start := HeadWrite(y, d, t.blocks).data];
      && logged[y.start] == d[y.start]
      && headed == Installed(y, d, t, HeadWrite(y, d, t.blocks).data, 0)
      && SlotData(y, headed, |t.blocks|) == t.data
  {
    hide Apply, HeadWrite;
    var n := |t.blocks|;
    assert Puts(Slots(y, n), t.data)[..n] == Puts(Slots(y, n), t.data);
    ApplyPuts(d, Slots(y, n), t.data, n);
    HeadedContents(y, d, t, HeadWrite(y, d, t.blocks).data);
    assert Puts(t.blocks, t.data)[..0] == [];
    NothingApplied(Apply(d, Puts(Slots(y, n), t.data))[y.start := HeadWrite(y, d, t.blocks).data]);
  }

  lemma NothingApplied(d: Disk)
    ensures Apply(d, []) == d
  {
  }

  /** The disk between the phases of a commit, seen from the disk at the start. */
  lemma CommitPhases(y: Layout, d: Disk, t: Txn)
    requires Clean(y, d) && ValidTxn(y, d, t) && |t.blocks| > 0
    ensures
      var logged := Apply(d, Puts(Slots(y, |t.blocks|), t.data));
      var headed := logged[y.start := HeadWrite(y, d, t.blocks).data];
      var home := Copied(y, headed, t.blocks, |t.blocks|);
      && logged[y.start] == d[y.start]
      && SlotData(y, headed, |t.blocks|) == t.data
      && home[y.start] == headed[y.start]
      && home == Installed(y, d, t, HeadWrite(y, d, t.blocks).data, |t.blocks|)
  {
    hide Apply, HeadWrite;
    LoggedPhase(y, d, t);
    var headed := Apply(d, Puts(Slots(y, |t.blocks|), t.data))[y.start := HeadWrite(y, d, t.blocks).data];
    CopiedContents(y, headed, t.blocks, |t.blocks|);
    assert y.Inside(y.start);
  }

  /** The phases end where the list of writes ends. */
  lemma CommitEnds(y: Layout, d: Disk, t: Txn, before: seq<Write>)
    requires Clean(y, d) && ValidTxn(y, d, t) && |t.blocks| > 0
    ensures Installed(y, d, t, HeadWrite(y, d, t.blocks).data, |t.blocks|)[y.start := ClearWrite(y, d, t.blocks).data]
            == Apply(d, CommitWrites(y, d, t))
    ensures before + Puts(Slots(y, |t.blocks|), t.data) + [HeadWrite(y, d, t.blocks)] + Puts(t.blocks, t.data)
            + [ClearWrite(y, d, t.blocks)] == before + CommitWrites(y, d, t)
  {
    FinalShape(y, d, t);
  }

  lemma NothingToCommit(y: Layout, d: Disk, t: Txn)
    requires y.Fits(d) && |t.blocks| <= LOGSIZE && |t.data| == |t.blocks|
    ensures t.blocks == [] ==> CommitWrites(y, d, t) == [] && Apply(d, CommitWrites(y, d, t)) == d
  {
  }

  lemma RecoveryEnds(y: Layout, d: Disk)
    requires WellFormed(y, d)
    ensures Copied(y, d, Head(y, d), |Head(y, d)|)[y.start := HeadWrite(y, d, []).data]
            == Apply(d, RecoveryWrites(y, d))
  {
    var blocks, ws := Head(y, d), RecoveryWrites(y, d);
    var home := Puts(blocks, SlotData(y, d, |blocks|));
    assert ws[..|ws| - 1] == home[..|blocks|];
  }

  /** The in-memory log together with the disk it works on. */
  class Log {
    const y: Layout
    var disk: Disk
    var lh: seq<int>           // block numbers in the in-memory header
    ghost var writes: seq<Write>

    constructor (y: Layout, disk: Disk)
      requires y.Fits(disk)
      ensures this.y == y && this.disk == disk && lh == [] && writes == []
    {
      this.y, this.disk, lh, writes := y, disk, [], [];
    }

    method WriteBlock(b: int, data: Block)
      requires 0 <= b < |disk|
      modifies this`disk, this`writes
      ensures disk == old(disk)[b := data] && writes == old(writes) + [Write(b, data)]
    {
      disk := disk[b := data];
      writes := writes + [Write(b, data)];
    }

    /** Copies the modified blocks from the cache to the log. */
    method WriteLog(cache: map<int, Block>)
      requires y.Fits(disk) && |lh| < y.size && forall i :: 0 <= i < |lh| ==> lh[i] in cache
      modifies this`disk, this`writes
      ensures writes == old(writes) + Puts(Slots(y, |lh|), Cached(cache, lh))
      ensures disk == Apply(old(disk), Puts(Slots(y, |lh|), Cached(cache, lh)))
    {
      ghost var ws := Puts(Slots(y, |lh|), Cached(cache, lh));
      assert ws[..0] == [];
      for tail := 0 to |lh|
        invariant |disk| == |old(disk)| && disk == Apply(old(disk), ws[..tail])
        invariant writes == old(writes) + ws[..tail]
      {
        WriteBlock(y.start + tail + 1, cache[lh[tail]]);
        assert ws[..tail + 1][..tail] == ws[..tail] && ws[tail] == Write(y.start + tail + 1, cache[lh[tail]]);
        assert ws[..tail + 1] == ws[..tail] + [ws[tail]];
      }
      assert ws[..|lh|] == ws;
    }

    /** Writes the in-memory header to disk. */
    method WriteHead()
      requires y.Fits(disk) && |lh| <= LOGSIZE
      modifies this`disk, this`writes
      ensures disk == old(disk)[y.start := EncodeHead(old(disk)[y.start], lh)]
      ensures writes == old(writes) + [HeadWrite(y, old(disk), lh)]
    {
      var hb: seq<int> := disk[y.start];
      hb := hb[0 := |lh|];
      for i := 0 to |lh|
        invariant |hb| == WORDS && hb[..1 + i] == [|lh|] + lh[..i] && hb[1 + i..] == disk[y.start][1 + i..]
      {
        hb := hb[1 + i := lh[i]];
      }
      assert hb == EncodeHead(disk[y.start], lh);
      WriteBlock(y.start, hb);
    }

    /** Copies the logged blocks to their home locations. */
    method Install()
      requires y.Fits(disk) && y.Loggable(disk, lh)
      modifies this`disk, this`writes
      ensures disk == Copied(y, old(disk), lh, |lh|)
      ensures writes == old(writes) + Puts(lh, SlotData(y, old(disk), |lh|))
    {
      hide Copied, Puts, Distinct;
      ghost var d, ws := disk, Puts(lh, SlotData(y, disk, |lh|));
      CopiedNone(y, d, lh);
      assert ws[..0] == [];
      for tail := 0 to |lh|
        invariant disk == Copied(y, d, lh, tail)
        invariant writes == old(writes) + ws[..tail]
      {
        CopiedStep(y, d, lh, tail);
        WriteBlock(lh[tail], disk[y.start + tail + 1]);
        assert ws[..tail + 1] == ws[..tail] + [ws[tail]];
      }
      assert ws[..|lh|] == ws;
    }

    /** Commits the blocks listed in the header with the contents they have in the cache. */
    method Commit(cache: map<int, Block>)
      requires Clean(y, disk) && y.Loggable(disk, lh) && forall i :: 0 <= i < |lh| ==> lh[i] in cache
      modifies this
      ensures lh == []
      ensures disk == Apply(old(disk), CommitWrites(y, old(disk), Txn(old(lh), Cached(cache, old(lh)))))
      ensures writes == old(writes) + CommitWrites(y, old(disk), Txn(old(lh), Cached(cache, old(lh))))
    {
      hide Apply, Copied, Installed, CommitWrites, EncodeHead, Puts, Slots;
      ghost var t := Txn(lh, Cached(cache, lh));
      NothingToCommit(y, disk, t);
      if |lh| > 0 {
        CommitPhases(y, disk, t);
        CommitEnds(y, disk, t, writes);
        WriteLog(cache);
        WriteHead();
        Install();
        lh := [];
        WriteHead();
      }
    }

    method ReadHead()
      requires WellFormed(y, disk)
      modifies this`lh
      ensures lh == Head(y, disk)
    {
      var hb: seq<int> := disk[y.start];
      lh := [];
      for i := 0 to hb[0]
        invariant lh == hb[1..1 + i]
      {
        lh := lh + [hb[1 + i]];
      }
    }

    /** Installs a committed transaction found in the log and clears the log. */
    method Recover()
      requires WellFormed(y, disk)
      modifies this
      ensures lh == []
      ensures disk == Apply(old(disk), RecoveryWrites(y, old(disk)))
      ensures writes == old(writes) + RecoveryWrites(y, old(disk))
    {
      ReadHead();
      Install();
      CopiedContents(y, old(disk), Head(y, old(disk)), |Head(y, old(disk))|);
      assert disk[y.start] == old(disk)[y.start];
      lh := [];
      WriteHead();
      RecoveryEnds(y, old(disk));
    }
  }
}
