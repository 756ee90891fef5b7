/**
 The driver side of the virtio block device: the descriptor table, the two rings and their
 16-bit indices (sections 2.6 and 5.2 of VIRTIO 1.1).

 vdisk_lock is released only inside sleep, so the driver's code is a set of sections that run
 one at a time; between them the device may fetch available chains in order and complete
 fetched ones in any order. Every section and every device action keeps Valid.
 */
module VirtioDisk {

  import opened Modular

  const NUM := 8
  const UINT16 := 0x1_0000
  const NEXT := 1       // VRING_DESC_F_NEXT
  const WRITE := 2      // VRING_DESC_F_WRITE
  const NOBUF := -1

  datatype Desc = Desc(addr: int, len: nat, flags: nat, next: nat)

  const BLANK := Desc(0, 0, 0, 0)

  datatype Info = Info(b: int, status: nat)

  /** Where a request is: in the avail ring, at the device, in the used ring, or seen by the interrupt handler. */
  datatype Stage = Queued | Fetched | Completed | Seen

  /** The descriptors after the head, the buffer that submitted the request, and its stage. */
  datatype Chain = Chain(mid: nat, last: nat, buf: nat, stage: Stage)

  predicate HasNext(flags: nat) {
    flags % 2 == 1
  }

  // ---------- free descriptors and chains partition the table ----------

  /** Descriptor i is free, or belongs to the chain of its owner. */
  ghost predicate DescOk(free: seq<bool>, owner: seq<int>, chains: map<nat, Chain>, i: nat)
    requires |free| == NUM && |owner| == NUM && i < NUM
  {
    if free[i] then owner[i] == -1 else owner[i] >= 0 && owner[i] in chains && InChain(chains, owner[i], i)
  }

  /** A chain has three different descriptors, all its own. */
  ghost predicate ChainOk(owner: seq<int>, chains: map<nat, Chain>, h: nat)
    requires |owner| == NUM && h in chains
  {
    var c := chains[h];
    && h < NUM && c.mid < NUM && c.last < NUM && h != c.mid && h != c.last && c.mid != c.last
    && owner[h] == h && owner[c.mid] == h && owner[c.last] == h
  }

  /** owner[i] is the head of the chain that descriptor i belongs to, -1 if it is free. */
  ghost predicate Partition(free: seq<bool>, owner: seq<int>, chains: map<nat, Chain>)
    ensures Partition(free, owner, chains) ==> |free| == NUM && |owner| == NUM
  {
    && |free| == NUM && |owner| == NUM
    && (forall i: nat :: i < NUM ==> DescOk(free, owner, chains, i))
    && (forall h :: h in chains ==> ChainOk(owner, chains, h))
  }

  ghost predicate InChain(chains: map<nat, Chain>, h: nat, i: nat)
    requires h in chains
  {
    i == h || i == chains[h].mid || i == chains[h].last
  }

  /** The descriptors of a chain are linked, head to middle to last. */
  ghost predicate Linked(desc: seq<Desc>, chains: map<nat, Chain>)
    ensures Linked(desc, chains) ==> |desc| == NUM
  {
    && |desc| == NUM
    && forall h :: h in chains && h < NUM && chains[h].mid < NUM && chains[h].last < NUM ==>
         && HasNext(desc[h].flags) && desc[h].next == chains[h].mid
         && HasNext(desc[chains[h].mid].flags) && desc[chains[h].mid].next == chains[h].last
         && !HasNext(desc[chains[h].last].flags)
  }

  // ---------- rings ----------

  /** A 16-bit index counts modulo 2^16; the ring entry it names is its remainder by NUM. */
  function Idx16(n: nat): nat {
    n % UINT16
  }

  function Incr(idx: nat): nat {
    (idx + 1) % UINT16
  }

  function Slot(n: nat): (r: nat)
    ensures r < NUM
  {
    n % NUM
  }

  /** The 16-bit indices of two logs at most NUM apart tell whether they are equal, and index the ring rightly. */
  lemma IndexWraps(n: nat, from: nat)
    requires from <= n <= from + NUM
    ensures Idx16(from) == Idx16(n) <==> from == n
    ensures Slot(Idx16(n)) == Slot(n) && Slot(Idx16(from)) == Slot(from)
    ensures Incr(Idx16(n)) == Idx16(n + 1) && Incr(Idx16(from)) == Idx16(from + 1)
  {
    hide Idx16, Incr, Slot;
    WrapsBoth(n);
    WrapsBoth(from);
    if from < n {
      assert Idx16(from) != Idx16(n) by { SixteenBits(from, n); }
    }
  }

  lemma WrapsBoth(n: nat)
    ensures Slot(Idx16(n)) == Slot(n) && Incr(Idx16(n)) == Idx16(n + 1)
  {
    WrapsAt(n, NUM, 0x2000);
    AddMultiple(n / UINT16, UINT16, n % UINT16 + 1);
  }

  lemma SixteenBits(k: nat, n: nat)
    requires k < n < k + UINT16
    ensures Idx16(k) != Idx16(n)
  {
    DifferentResidues(k, n, UINT16);
  }

  /** The entries from..|log| - 1 of a log of heads are in the ring, and are the chains in the given stage. */
  ghost predicate InRing(ring: seq<nat>, idx: nat, log: seq<nat>, from: nat, chains: map<nat, Chain>, stage: Stage)
    ensures InRing(ring, idx, log, from, chains, stage) ==>
      |ring| == NUM && idx == Idx16(|log|) && from <= |log| <= from + NUM
  {
    && |ring| == NUM && idx == Idx16(|log|) && from <= |log| <= from + NUM
    && (forall k :: from <= k < |log| ==> ring[Slot(k)] == log[k] && log[k] in chains && chains[log[k]].stage == stage)
    && (forall j, k :: from <= j < k < |log| ==> log[j] != log[k])
    && (forall h :: h in chains && chains[h].stage == stage ==> exists k :: from <= k < |log| && log[k] == h)
  }

  /** A buffer has its disk flag up exactly while a request of its is under way. */
  ghost predicate Busy(chains: map<nat, Chain>, info: seq<Info>, busy: set<nat>)
    ensures Busy(chains, info, busy) ==> |info| == NUM
  {
    && |info| == NUM
    && (forall h :: h in chains && h < NUM ==> info[h].b == chains[h].buf)
    && (forall h :: h in chains && h < NUM && chains[h].stage == Completed ==> info[h].status == 0)
    && (forall h :: h in chains && chains[h].stage != Seen ==> chains[h].buf in busy)
    && (forall h, g :: h in chains && g in chains && chains[h].buf == chains[g].buf ==> h == g)
    && (forall b :: b in busy ==> exists h :: h in chains && chains[h].buf == b && chains[h].stage != Seen)
  }

  /** The free marks once the descriptors of idx are taken. */
  function Taken(free: seq<bool>, idx: seq<nat>): (r: seq<bool>)
    requires forall k :: 0 <= k < |idx| ==> idx[k] < |free|
    ensures |r| == |free| && forall i: nat :: i < |free| ==> r[i] == (free[i] && i !in idx)
  {
    seq(|free|, i requires 0 <= i < |free| => free[i] && i !in idx)
  }

  /** No three descriptors are free. */
  ghost predicate FewFree(free: seq<bool>) {
    forall i, j, k :: 0 <= i < j < k < |free| ==> !(free[i] && free[j] && free[k])
  }

  // ---------- what sections and device actions do to the parts of Valid ----------

  function Staged(chains: map<nat, Chain>, h: nat, stage: Stage): map<nat, Chain>
    requires h in chains
  {
    chains[h := chains[h].(stage := stage)]
  }

  lemma PartitionStaged(free: seq<bool>, owner: seq<int>, chains: map<nat, Chain>, h: nat, stage: Stage)
    requires Partition(free, owner, chains) && h in chains
    ensures Partition(free, owner, Staged(chains, h, stage))
  {
    var chains' := Staged(chains, h, stage);
    forall i: nat | i < NUM ensures DescOk(free, owner, chains', i) {
      assert DescOk(free, owner, chains, i);
    }
    forall g | g in chains' ensures ChainOk(owner, chains', g) {
      assert ChainOk(owner, chains, g);
    }
  }

  lemma LinkedStaged(desc: seq<Desc>, chains: map<nat, Chain>, h: nat, stage: Stage)
    requires Linked(desc, chains) && h in chains
    ensures Linked(desc, Staged(chains, h, stage))
  {
  }

  /** A chain's descriptors are not free. */
  lemma ChainTaken(free: seq<bool>, owner: seq<int>, chains: map<nat, Chain>, h: nat)
    requires Partition(free, owner, chains) && h in chains
    ensures h < NUM && chains[h].mid < NUM && chains[h].last < NUM && !free[h] && !free[chains[h].mid]
    ensures !free[chains[h].last]
  {
    assert ChainOk(owner, chains, h);
    assert DescOk(free, owner, chains, h) && DescOk(free, owner, chains, chains[h].mid);
    assert DescOk(free, owner, chains, chains[h].last);
  }

  lemma PartitionAdd(free: seq<bool>, owner: seq<int>, chains: map<nat, Chain>, h: nat, c: Chain, free': seq<bool>)
    requires Partition(free, owner, chains) && h < NUM && c.mid < NUM && c.last < NUM && free[h] && free[c.mid]
    requires free[c.last]
    requires h != c.mid && h != c.last && c.mid != c.last && |free'| == NUM
    requires forall i: nat :: i < NUM ==> free'[i] == (free[i] && i != h && i != c.mid && i != c.last)
    ensures h !in chains && Partition(free', owner[h := h][c.mid := h][c.last := h], chains[h := c])
  {
    var owner', chains' := owner[h := h][c.mid := h][c.last := h], chains[h := c];
    if h in chains {
      ChainTaken(free, owner, chains, h);
    }
    forall i: nat | i < NUM ensures DescOk(free', owner', chains', i) {
      assert DescOk(free, owner, chains, i);
    }
    forall g | g in chains' ensures ChainOk(owner', chains', g) {
      if g != h {
        ChainTaken(free, owner, chains, g);
        assert ChainOk(owner, chains, g);
      }
    }
  }

  lemma PartitionRemove(free: seq<bool>, owner: seq<int>, chains: map<nat, Chain>, h: nat)
    requires Partition(free, owner, chains) && h in chains
    ensures
      var c := chains[h];
      && h < NUM && c.mid < NUM && c.last < NUM
      && Partition(free[h := true][c.mid := true][c.last := true],
                   owner[h := -1][c.mid := -1][c.last := -1], chains - {h})
  {
    var c := chains[h];
    assert ChainOk(owner, chains, h);
    var free', owner' := free[h := true][c.mid := true][c.last := true], owner[h := -1][c.mid := -1][c.last := -1];
    var chains' := chains - {h};
    forall i: nat | i < NUM ensures DescOk(free', owner', chains', i) {
      assert DescOk(free, owner, chains, i);
    }
    forall g | g in chains' ensures ChainOk(owner', chains', g) {
      assert ChainOk(owner, chains, g);
    }
  }

  lemma SlotsApart(k: nat, n: nat)
    requires k < n < k + NUM
    ensures Slot(k) != Slot(n)
  {
    DifferentResidues(k, n, NUM);
  }

  /** The next head goes to a ring entry that holds no earlier one still waiting. */
  lemma RingPush(ring: seq<nat>, idx: nat, log: seq<nat>, from: nat, chains: map<nat, Chain>, stage: Stage, h: nat,
                 chains': map<nat, Chain>)
    requires InRing(ring, idx, log, from, chains, stage) && h < NUM && (h in chains ==> chains[h].stage != stage)
    requires (forall g :: g in chains ==> g < NUM) && h in chains' && chains'[h].stage == stage
    requires forall g :: g != h ==>
      (g in chains' <==> g in chains) && (g in chains ==> chains'[g].stage == chains[g].stage)
    ensures InRing(ring[Slot(idx) := h], Incr(idx), log + [h], from, chains', stage)
  {
    hide Idx16, Incr, Slot;
    var n := |log|;
    IndexWraps(n, from);
    var waiting := log[from..] + [h];
    assert forall k :: 0 <= k < n - from ==> waiting[k] == log[from + k];
    DistinctFit(waiting, NUM);
    var ring', log' := ring[Slot(idx) := h], log + [h];
    forall k | from <= k < n + 1
      ensures ring'[Slot(k)] == log'[k] && log'[k] in chains' && chains'[log'[k]].stage == stage
    {
      if k < n {
        assert Slot(k) != Slot(n) by { SlotsApart(k, n); }
      }
    }
    forall g | g in chains' && chains'[g].stage == stage ensures exists k :: from <= k < n + 1 && log'[k] == g {
      if g == h {
        assert log'[n] == h;
      } else {
        var k :| from <= k < n && log[k] == g;
        assert log'[k] == g;
      }
    }
  }

  /** The oldest waiting head leaves its stage. */
  lemma RingPop(ring: seq<nat>, idx: nat, log: seq<nat>, from: nat, chains: map<nat, Chain>, stage: Stage,
                stage': Stage)
    requires InRing(ring, idx, log, from, chains, stage) && from < |log| && stage' != stage
    ensures ring[Slot(from)] == log[from] && log[from] in chains && chains[log[from]].stage == stage
    ensures InRing(ring, idx, log, from + 1, Staged(chains, log[from], stage'), stage)
  {
    var h := log[from];
    forall g | g in chains && g != h && chains[g].stage == stage
      ensures exists k :: from + 1 <= k < |log| && log[k] == g
    {
      var k :| from <= k < |log| && log[k] == g;
    }
  }

  /** A ring does not see heads come, go or change between other stages. */
  lemma RingAside(ring: seq<nat>, idx: nat, log: seq<nat>, from: nat, chains: map<nat, Chain>, stage: Stage,
                  chains': map<nat, Chain>, h: nat)
    requires InRing(ring, idx, log, from, chains, stage)
    requires (h in chains ==> chains[h].stage != stage) && (h in chains' ==> chains'[h].stage != stage)
    requires forall g :: g != h ==>
      (g in chains' <==> g in chains) && (g in chains ==> chains'[g].stage == chains[g].stage)
    ensures InRing(ring, idx, log, from, chains', stage)
  {
  }

  lemma StagedAside(ring: seq<nat>, idx: nat, log: seq<nat>, from: nat, chains: map<nat, Chain>, stage: Stage, h: nat,
                    to: Stage)
    requires InRing(ring, idx, log, from, chains, stage) && h in chains && chains[h].stage != stage && to != stage
    ensures InRing(ring, idx, log, from, Staged(chains, h, to), stage)
  {
    hide InRing;
    RingAside(ring, idx, log, from, chains, stage, Staged(chains, h, to), h);
  }

  lemma StagedPush(ring: seq<nat>, idx: nat, log: seq<nat>, from: nat, chains: map<nat, Chain>, h: nat, to: Stage)
    requires InRing(ring, idx, log, from, chains, to) && h in chains && chains[h].stage != to
    requires forall g :: g in chains ==> g < NUM
    ensures InRing(ring[Slot(idx) := h], Incr(idx), log + [h], from, Staged(chains, h, to), to)
  {
    hide InRing, Incr, Slot;
    RingPush(ring, idx, log, from, chains, to, h, Staged(chains, h, to));
  }

  class Disk {

    var free: seq<bool>
    var desc: seq<Desc>
    var availRing: seq<nat>
    var availIdx: nat
    var usedRing: seq<nat>
    var deviceIdx: nat       // how far the device has looked in the avail ring
    var deviceUsedIdx: nat   // used->idx
    var usedIdx: nat         // how far the driver has looked
    var info: seq<Info>
    var busy: set<nat>       // the buffers with disk == 1
    var atDevice: set<nat>   // the heads the device has fetched and not completed
    ghost var owner: seq<int>
    ghost var chains: map<nat, Chain>
    ghost var offered: seq<nat>   // every head ever put in the avail ring
    ghost var fetched: nat        // how many of them the device has fetched
    ghost var returned: seq<nat>  // every head the device ever put in the used ring
    ghost var seen: nat           // how many of them the driver has processed

    ghost predicate Valid()
      reads this
    {
      && Requests(free, owner, desc, info, busy, atDevice, chains)
      && InRing(availRing, availIdx, offered, fetched, chains, Queued)
      && InRing(usedRing, deviceUsedIdx, returned, seen, chains, Completed)
      && usedIdx == Idx16(seen) && deviceIdx == Idx16(fetched)
    }

    constructor ()
      ensures Valid() && chains == map[] && busy == {}
    {
      free := seq(NUM, i => true);
      desc := seq(NUM, i => BLANK);
      availRing, usedRing := seq(NUM, i => 0), seq(NUM, i => 0);
      availIdx, deviceIdx, deviceUsedIdx, usedIdx := 0, 0, 0, 0;
      info := seq(NUM, i => Info(NOBUF, 0));
      busy, atDevice, owner, chains := {}, {}, seq(NUM, i => -1), map[];
      offered, fetched, returned, seen := [], 0, [], 0;
    }

    /** The first free descriptor, marked as taken; -1 if there is none. */
    method AllocDesc() returns (i: int)
      requires |free| == NUM
      modifies this`free
      ensures |free| == NUM
      ensures i == -1 <==> forall k :: 0 <= k < NUM ==> !old(free)[k]
      ensures i == -1 ==> free == old(free)
      ensures i != -1 ==> 0 <= i < NUM && old(free)[i] && free == old(free)[i := false]
    {
      i := 0;
      while i < NUM
        invariant 0 <= i <= NUM && free == old(free) && forall k :: 0 <= k < i ==> !free[k]
      {
        if free[i] {
          free := free[i := false];
          return;
        }
        i := i + 1;
      }
      return -1;
    }

    /** Frees a descriptor; panics if it is out of range or free already. */
    method FreeDesc(i: nat) returns (ok: bool)
      requires |free| == NUM && |desc| == NUM
      modifies this`free, this`desc
      ensures |free| == NUM && |desc| == NUM
      ensures ok <==> i < NUM && !old(free)[i]
      ensures ok ==> free == old(free)[i := true] && desc == old(desc)[i := BLANK]
      ensures !ok ==> free == old(free) && desc == old(desc)
    {
      if i >= NUM {
        return false;
      }
      if free[i] {
        return false;
      }
      desc := desc[i := BLANK];
      free := free[i := true];
      return true;
    }

    /** Gives descriptors taken from free0 back. */
    method Rollback(idx: seq<nat>, ghost free0: seq<bool>)
      requires |free0| == NUM && |desc| == NUM
      requires forall k :: 0 <= k < |idx| ==> idx[k] < NUM && free0[idx[k]]
      requires forall j, k :: 0 <= j < k < |idx| ==> idx[j] != idx[k]
      requires free == Taken(free0, idx)
      modifies this`free, this`desc
      ensures free == free0 && |desc| == NUM && forall i: nat :: i < NUM && !free[i] ==> desc[i] == old(desc)[i]
    {
      var j := 0;
      while j < |idx|
        invariant 0 <= j <= |idx| && |free| == NUM && |desc| == NUM
        invariant forall i: nat :: i < NUM ==> free[i] == (free0[i] && i !in idx[j..])
        invariant forall i: nat :: i < NUM && !free0[i] ==> desc[i] == old(desc)[i]
      {
        assert idx[j..] == [idx[j]] + idx[j + 1..];
        var done := FreeDesc(idx[j]);
        j := j + 1;
      }
    }

    /** Three descriptors or none. */
    method Alloc3Desc() returns (ok: bool, idx: seq<nat>)
      requires |free| == NUM && |desc| == NUM
      modifies this`free, this`desc
      ensures |desc| == NUM && forall k :: 0 <= k < |idx| ==> idx[k] < NUM && old(free)[idx[k]]
      ensures forall j, k :: 0 <= j < k < |idx| ==> idx[j] != idx[k]
      ensures ok ==> |idx| == 3 && desc == old(desc) && free == Taken(old(free), idx)
      ensures !ok ==> free == old(free) && forall i: nat :: i < NUM && !free[i] ==> desc[i] == old(desc)[i]
      ensures !ok ==> FewFree(free)
    {
      idx := [];
      while |idx| < 3
        invariant |idx| <= 3 && desc == old(desc)
        invariant forall k :: 0 <= k < |idx| ==> idx[k] < NUM && old(free)[idx[k]]
        invariant forall j, k :: 0 <= j < k < |idx| ==> idx[j] != idx[k]
        invariant free == Taken(old(free), idx)
      {
        var d := AllocDesc();
        if d < 0 {
          Rollback(idx, old(free));
          return false, idx;
        }
        idx := idx + [d];
      }
      ok := true;
    }

    /** Formats the three descriptors of a request and records its buffer. */
    method Format(idx: seq<nat>, b: nat, write: bool)
      requires |idx| == 3 && |desc| == NUM && |info| == NUM && forall k :: 0 <= k < 3 ==> idx[k] < NUM
      requires forall j, k :: 0 <= j < k < 3 ==> idx[j] != idx[k]
      modifies this`desc, this`info, this`busy
      ensures |desc| == NUM && forall i: nat :: i < NUM && i !in idx ==> desc[i] == old(desc)[i]
      ensures HasNext(desc[idx[0]].flags) && desc[idx[0]].next == idx[1] && desc[idx[0]].addr == idx[0]
      ensures desc[idx[0]].flags / 2 % 2 == 0 && desc[idx[2]].flags / 2 % 2 == 1
      ensures HasNext(desc[idx[1]].flags) && desc[idx[1]].next == idx[2] && desc[idx[1]].addr == b
      ensures desc[idx[1]].flags / 2 % 2 == 1 <==> !write
      ensures !HasNext(desc[idx[2]].flags) && desc[idx[2]].addr == idx[0]
      ensures info == old(info)[idx[0] := Info(b, 0xff)] && busy == old(busy) + {b}
    {
      desc := desc[idx[0] := Desc(idx[0], 16, NEXT, idx[1])];
      desc := desc[idx[1] := Desc(b, 1024, (if write then 0 else WRITE) + NEXT, idx[2])];
      info := info[idx[0] := info[idx[0]].(status := 0xff)];
      desc := desc[idx[2] := Desc(idx[0], 1, WRITE, 0)];
      busy := busy + {b};
      info := info[idx[0] := info[idx[0]].(b := b)];
    }

    /** virtio_disk_rw up to the wait for completion; false if it has to sleep for descriptors first. */
    method StartRw(b: nat, write: bool) returns (started: bool, head: nat)
      requires Valid() && forall h :: h in chains ==> chains[h].buf != b
      modifies this
      ensures Valid()
      ensures started ==> head !in old(chains) && head in chains && chains == old(chains)[head := chains[head]]
      ensures started ==>
        && chains[head].buf == b && chains[head].stage == Queued
        && busy == old(busy) + {b} && offered == old(offered) + [head]
      ensures !started ==> chains == old(chains) && busy == old(busy) && offered == old(offered) && FewFree(free)
      ensures returned == old(returned) && seen == old(seen)
    {
      hide Requests, Partition, Linked, Busy, AtDevice, InRing, Taken, HasNext, Idx16, Incr, Slot, FewFree;
      head := 0;
      ghost var free0, desc0, info0, busy0 := free, desc, info, busy;
      var idx;
      started, idx := Alloc3Desc();
      if !started {
        RequestsSame(free, owner, desc0, info, busy, atDevice, chains, desc);
        return;
      }
      head := idx[0];
      Format(idx, b, write);
      ghost var c := Chain(idx[1], idx[2], b, Queued);
      RequestAdded(free0, owner, desc0, info0, busy0, atDevice, chains, idx, c, free, desc, info, busy);
      Publish(head, c);
    }

    /** Puts the head in the avail ring. */
    method Publish(head: nat, ghost c: Chain)
      requires head < NUM && c.mid < NUM && c.last < NUM && head !in chains && c.stage == Queued && |owner| == NUM
      requires (forall h :: h in chains ==> h < NUM) && usedIdx == Idx16(seen) && deviceIdx == Idx16(fetched)
      requires Requests(free, owner[head := head][c.mid := head][c.last := head], desc, info, busy,
                        atDevice, chains[head := c])
      requires InRing(availRing, availIdx, offered, fetched, chains, Queued)
      requires InRing(usedRing, deviceUsedIdx, returned, seen, chains, Completed)
      modifies this`availRing, this`availIdx, this`offered, this`owner, this`chains
      ensures Valid() && chains == old(chains)[head := c] && offered == old(offered) + [head]
    {
      hide Requests, Partition, Linked, Busy, AtDevice, InRing, Idx16, Incr, Slot;
      RingPush(availRing, availIdx, offered, fetched, chains, Queued, head, chains[head := c]);
      RingAside(usedRing, deviceUsedIdx, returned, seen, chains, Completed, chains[head := c], head);
      availRing := availRing[Slot(availIdx) := head];
      availIdx := Incr(availIdx);
      offered := offered + [head];
      owner := owner[head := head][c.mid := head][c.last := head];
      chains := chains[head := c];
    }

    /** The device fetches the next available chain; it finds in the ring the oldest head it has not fetched. */
    method DeviceFetch() returns (h: nat)
      requires Valid() && deviceIdx != availIdx
      modifies this`deviceIdx, this`fetched, this`atDevice, this`chains
      ensures Valid() && old(fetched) < |offered| && h == offered[old(fetched)] && fetched == old(fetched) + 1
      ensures h in old(chains) && old(chains)[h].stage == Queued && chains == Staged(old(chains), h, Fetched)
    {
      hide Requests, Partition, Linked, Busy, AtDevice, InRing, Idx16, Incr, Slot, Staged;
      IndexWraps(|offered|, fetched);
      RingPop(availRing, availIdx, offered, fetched, chains, Queued, Fetched);
      h := availRing[Slot(deviceIdx)];
      ghost var chains' := Staged(chains, h, Fetched);
      StagedAside(usedRing, deviceUsedIdx, returned, seen, chains, Completed, h, Fetched);
      RequestFetched(free, owner, desc, info, busy, atDevice, chains, h);
      deviceIdx := Incr(deviceIdx);
      fetched, atDevice := fetched + 1, atDevice + {h};
      chains := chains';
    }

    /** The device completes a fetched chain, whichever it likes: status 0, and the head in the used ring. */
    method DeviceComplete(h: nat)
      requires Valid() && h in atDevice
      modifies this`usedRing, this`deviceUsedIdx, this`returned, this`info, this`atDevice, this`chains
      ensures Valid() && h in old(chains) && old(chains)[h].stage == Fetched
      ensures chains == Staged(old(chains), h, Completed) && returned == old(returned) + [h]
    {
      hide Requests, Partition, Linked, Busy, AtDevice, InRing, Idx16, Incr, Slot, Staged;
      RequestCompleted(free, owner, desc, info, busy, atDevice, chains, h);
      ghost var chains' := Staged(chains, h, Completed);
      StagedPush(usedRing, deviceUsedIdx, returned, seen, chains, h, Completed);
      StagedAside(availRing, availIdx, offered, fetched, chains, Queued, h, Completed);
      info := info[h := info[h].(status := 0)];
      usedRing := usedRing[Slot(deviceUsedIdx) := h];
      deviceUsedIdx := Incr(deviceUsedIdx);
      returned, atDevice := returned + [h], atDevice - {h};
      chains := chains';
    }

    /**
     One round of virtio_disk_intr: the oldest completion not yet seen lowers the flag of the buffer
     that submitted it.
     */
    method IntrOne() returns (ok: bool)
      requires Valid() && usedIdx != deviceUsedIdx
      modifies this`usedIdx, this`seen, this`busy, this`chains
      ensures ok && Valid() && old(seen) < |returned| && seen == old(seen) + 1
      ensures
        var h := returned[old(seen)];
        && h in old(chains) && old(chains)[h].stage == Completed && chains == Staged(old(chains), h, Seen)
        && old(chains)[h].buf in old(busy) && busy == old(busy) - {old(chains)[h].buf}
    {
      hide Requests, Partition, Linked, Busy, AtDevice, InRing, Idx16, Incr, Slot, Staged;
      IndexWraps(|returned|, seen);
      RingPop(usedRing, deviceUsedIdx, returned, seen, chains, Completed, Seen);
      ghost var h := returned[seen];
      var id := usedRing[Slot(usedIdx)];
      RequestSeen(free, owner, desc, info, busy, atDevice, chains, h);
      if info[id].status != 0 {
        return false;
      }
      var b := info[id].b;
      ghost var chains' := Staged(chains, h, Seen);
      StagedAside(availRing, availIdx, offered, fetched, chains, Queued, h, Seen);
      busy := busy - {b};
      usedIdx := Incr(usedIdx);
      seen := seen + 1;
      chains := chains';
      ok := true;
    }

    ghost function View(): DeviceView
      reads this
    {
      DeviceView(chains, fetched, returned)
    }

    /** One action of the device; it skips one that it cannot take. */
    method Take(a: Act)
      requires Valid()
      modifies this`deviceIdx, this`fetched, this`usedRing, this`deviceUsedIdx, this`returned, this`info, this`atDevice
      modifies this`chains
      ensures Valid() && Progress(old(chains), chains) && View() == Acted(old(View()), offered, a)
    {
      hide Requests, Partition, Linked, Busy, InRing, Idx16, Incr, Slot, Staged, Progress;
      ghost var c := chains;
      NoProgress(c);
      match a {
        case Fetch =>
          Pending(availRing, availIdx, offered, fetched, chains, Queued);
          if deviceIdx != availIdx {
            var h := DeviceFetch();
            MoreProgress(c, c, h, Fetched);
          }
        case Complete(h) =>
          HeldByDevice(free, owner, desc, info, busy, atDevice, chains, h);
          if h in atDevice {
            DeviceComplete(h);
            MoreProgress(c, c, h, Completed);
          }
      }
    }

    /** Any actions of the device, in order. */
    method Device(acts: seq<Act>)
      requires Valid()
      modifies this`deviceIdx, this`fetched, this`usedRing, this`deviceUsedIdx, this`returned, this`info, this`atDevice
      modifies this`chains
      ensures Valid() && Progress(old(chains), chains) && View() == AllActed(old(View()), offered, acts)
    {
      hide Requests, InRing, Idx16, Progress, Acted;
      NoProgress(chains);
      for k := 0 to |acts|
        invariant Valid() && Progress(old(chains), chains) && View() == AllActed(old(View()), offered, acts[..k])
      {
        ghost var c := chains;
        Take(acts[k]);
        ProgressAgain(old(chains), c, chains);
        assert acts[..k + 1][..k] == acts[..k];
      }
      assert acts[..|acts|] == acts;
    }

    /**
     virtio_disk_intr, with what the device does before each test of the loop: every completion the
     last test could see has been processed, whenever it came, and none panics.
     */
    method Intr(rounds: seq<seq<Act>>) returns (ok: bool)
      requires Valid()
      modifies this`deviceIdx, this`fetched, this`usedRing, this`deviceUsedIdx, this`returned, this`info, this`atDevice
      modifies this`usedIdx, this`seen, this`busy, this`chains
      ensures ok && Valid() && seen == |returned| && Progress(old(chains), chains)
      ensures forall h :: h in chains ==> chains[h].stage != Completed
    {
      hide Requests, Partition, Linked, Busy, AtDevice, InRing, Idx16, Incr, Slot, Staged, Progress, AllActed;
      ok := true;
      NoProgress(chains);
      var k := 0;
      while true
        invariant ok && Valid() && 0 <= k <= |rounds| && Progress(old(chains), chains)
        decreases |rounds| - k, |returned| - seen
      {
        ghost var c := chains;
        if k < |rounds| {
          Device(rounds[k]);
          ProgressAgain(old(chains), c, chains);
          k := k + 1;
        }
        if usedIdx == deviceUsedIdx {
          break;
        }
        c := chains;
        ok := IntrOne();
        MoreProgress(old(chains), c, returned[seen - 1], Seen);
      }
      IndexWraps(|returned|, seen);
      NoneLeft(usedRing, deviceUsedIdx, returned, seen, chains);
    }

    /** free_chain: frees the descriptors of a chain, following the next fields. */
    method FreeChain(h: nat, ghost path: seq<nat>) returns (ok: bool)
      requires |free| == NUM && |desc| == NUM && Path(free, desc, path) && h == path[0]
      modifies this`free, this`desc
      ensures ok && |free| == NUM && |desc| == NUM
      ensures forall d: nat :: d < NUM ==>
        free[d] == (old(free)[d] || d in path) && (d !in path ==> desc[d] == old(desc)[d])
    {
      hide Visited, HasNext, Path;
      ok := true;
      var i := h;
      ghost var k := 0;
      ghost var free0, desc0 := free, desc;
      PathStarts(free0, desc0, path);
      while true
        invariant 0 <= k < |path| && i == path[k] < NUM && |free| == NUM && |desc| == NUM
        invariant forall d: nat :: d < NUM ==>
          free[d] == (free0[d] || Visited(path, k, d)) && (!Visited(path, k, d) ==> desc[d] == desc0[d])
        decreases |path| - k
      {
        PathStep(free0, desc0, path, k);
        var flag, nxt := desc[i].flags, desc[i].next;
        ok := FreeDesc(i);
        if !HasNext(flag) {
          VisitedAll(path);
          return;
        }
        i, k := nxt, k + 1;
      }
    }

    /** The end of virtio_disk_rw, once the buffer's flag is down: the chain's descriptors are free again. */
    method FinishRw(head: nat) returns (ok: bool)
      requires Valid() && head in chains && chains[head].buf !in busy
      modifies this`info, this`free, this`desc, this`owner, this`chains
      ensures ok && Valid() && chains == old(chains) - {head}
    {
      hide Requests, Partition, Linked, Busy, AtDevice, InRing, Path, Idx16, Incr, Slot;
      ghost var c, free0, desc0, info0 := chains[head], free, desc, info;
      RequestPath(free, owner, desc, info, busy, atDevice, chains, head);
      ghost var chains' := chains - {head};
      assert InRing(availRing, availIdx, offered, fetched, chains', Queued) by {
        RingAside(availRing, availIdx, offered, fetched, chains, Queued, chains', head);
      }
      assert InRing(usedRing, deviceUsedIdx, returned, seen, chains', Completed) by {
        RingAside(usedRing, deviceUsedIdx, returned, seen, chains, Completed, chains', head);
      }
      info := info[head := info[head].(b := NOBUF)];
      ok := FreeChain(head, [head, c.mid, c.last]);
      RequestFreed(free0, owner, desc0, info0, busy, atDevice, chains, head, free, desc);
      owner, chains := owner[head := -1][c.mid := -1][c.last := -1], chains';
    }
  }

  // ---------- requests ----------

  /** Descriptors, buffers and the device agree on the requests under way. */
  ghost predicate Requests(free: seq<bool>, owner: seq<int>, desc: seq<Desc>, info: seq<Info>, busy: set<nat>,
                           atDevice: set<nat>, chains: map<nat, Chain>)
    ensures Requests(free, owner, desc, info, busy, atDevice, chains) ==>
              |free| == NUM && |owner| == NUM && |desc| == NUM && |info| == NUM
  {
    Partition(free, owner, chains) && Linked(desc, chains) && Busy(chains, info, busy) && AtDevice(chains, atDevice)
  }

  lemma RequestsSame(free: seq<bool>, owner: seq<int>, desc: seq<Desc>, info: seq<Info>, busy: set<nat>,
                     atDevice: set<nat>, chains: map<nat, Chain>, desc': seq<Desc>)
    requires Requests(free, owner, desc, info, busy, atDevice, chains) && |desc'| == NUM
    requires forall i: nat :: i < NUM && !free[i] ==> desc'[i] == desc[i]
    ensures Requests(free, owner, desc', info, busy, atDevice, chains)
  {
    hide Partition, Linked, Busy, AtDevice;
    LinkedSame(free, owner, chains, desc, desc');
  }

  lemma RequestAdded(free: seq<bool>, owner: seq<int>, desc: seq<Desc>, info: seq<Info>, busy: set<nat>,
                     atDevice: set<nat>, chains: map<nat, Chain>, idx: seq<nat>, c: Chain,
                     free': seq<bool>, desc': seq<Desc>, info': seq<Info>, busy': set<nat>)
    requires Requests(free, owner, desc, info, busy, atDevice, chains) && |idx| == 3 && c.mid == idx[1]
    requires c.last == idx[2]
    requires forall k :: 0 <= k < 3 ==> idx[k] < NUM && free[idx[k]]
    requires forall j, k :: 0 <= j < k < 3 ==> idx[j] != idx[k]
    requires c.stage == Queued && (forall g :: g in chains ==> chains[g].buf != c.buf) && free' == Taken(free, idx)
    requires |desc'| == NUM && (forall i: nat :: i < NUM && i !in idx ==> desc'[i] == desc[i])
    requires HasNext(desc'[idx[0]].flags) && desc'[idx[0]].next == idx[1]
    requires HasNext(desc'[idx[1]].flags) && desc'[idx[1]].next == idx[2] && !HasNext(desc'[idx[2]].flags)
    requires |info'| == NUM && info' == info[idx[0] := info'[idx[0]]] && info'[idx[0]].b == c.buf
    requires busy' == busy + {c.buf}
    ensures idx[0] !in chains && forall h :: h in chains ==> h < NUM
    ensures
      var h := idx[0];
      Requests(free', owner[h := h][c.mid := h][c.last := h], desc', info', busy', atDevice, chains[h := c])
  {
    hide Partition, Linked, Busy, HasNext;
    PartitionAdd(free, owner, chains, idx[0], c, free');
    LinkedAdd(free, owner, desc, chains, idx, c, desc');
    BusyAdd(chains, info, busy, idx[0], c, info', busy');
    ChainBounds(free, owner, chains);
  }

  lemma RequestFetched(free: seq<bool>, owner: seq<int>, desc: seq<Desc>, info: seq<Info>, busy: set<nat>,
                       atDevice: set<nat>, chains: map<nat, Chain>, h: nat)
    requires Requests(free, owner, desc, info, busy, atDevice, chains) && h in chains && chains[h].stage == Queued
    ensures Requests(free, owner, desc, info, busy, atDevice + {h}, Staged(chains, h, Fetched))
  {
    hide Partition, Linked, Busy;
    ChainBounds(free, owner, chains);
    PartitionStaged(free, owner, chains, h, Fetched);
    LinkedStaged(desc, chains, h, Fetched);
    BusyStaged(chains, info, busy, h, Fetched, info);
  }

  lemma RequestCompleted(free: seq<bool>, owner: seq<int>, desc: seq<Desc>, info: seq<Info>, busy: set<nat>,
                         atDevice: set<nat>, chains: map<nat, Chain>, h: nat)
    requires Requests(free, owner, desc, info, busy, atDevice, chains) && h in atDevice
    ensures h in chains && chains[h].stage == Fetched && (forall g :: g in chains ==> g < NUM)
    ensures Requests(free, owner, desc, info[h := info[h].(status := 0)], busy,
                     atDevice - {h}, Staged(chains, h, Completed))
  {
    hide Partition, Linked, Busy;
    ChainBounds(free, owner, chains);
    PartitionStaged(free, owner, chains, h, Completed);
    LinkedStaged(desc, chains, h, Completed);
    BusyStaged(chains, info, busy, h, Completed, info[h := info[h].(status := 0)]);
  }

  lemma RequestSeen(free: seq<bool>, owner: seq<int>, desc: seq<Desc>, info: seq<Info>, busy: set<nat>,
                    atDevice: set<nat>, chains: map<nat, Chain>, h: nat)
    requires Requests(free, owner, desc, info, busy, atDevice, chains) && h in chains && chains[h].stage == Completed
    ensures h < NUM && info[h].b == chains[h].buf && info[h].status == 0 && chains[h].buf in busy
    ensures Requests(free, owner, desc, info, busy - {chains[h].buf}, atDevice, Staged(chains, h, Seen))
  {
    hide Partition, Linked, Busy;
    ChainBounds(free, owner, chains);
    PartitionStaged(free, owner, chains, h, Seen);
    LinkedStaged(desc, chains, h, Seen);
    BusyFacts(chains, info, busy, h);
    BusySeen(chains, info, busy, h);
  }

  lemma RequestPath(free: seq<bool>, owner: seq<int>, desc: seq<Desc>, info: seq<Info>, busy: set<nat>,
                    atDevice: set<nat>, chains: map<nat, Chain>, h: nat)
    requires Requests(free, owner, desc, info, busy, atDevice, chains) && h in chains && chains[h].buf !in busy
    ensures h < NUM && chains[h].mid < NUM && chains[h].last < NUM && chains[h].stage == Seen
    ensures Path(free, desc, [h, chains[h].mid, chains[h].last])
  {
    hide Partition, Linked, Busy, Path;
    ChainLinks(free, owner, desc, chains, h);
    BusyRemove(chains, info, busy, h, info);
  }

  lemma RequestFreed(free: seq<bool>, owner: seq<int>, desc: seq<Desc>, info: seq<Info>, busy: set<nat>,
                     atDevice: set<nat>, chains: map<nat, Chain>, h: nat, free': seq<bool>, desc': seq<Desc>)
    requires Requests(free, owner, desc, info, busy, atDevice, chains) && h in chains && chains[h].buf !in busy
    requires |free'| == NUM && |desc'| == NUM
    requires forall d: nat :: d < NUM ==>
               && free'[d] == (free[d] || d in [h, chains[h].mid, chains[h].last])
               && (d !in [h, chains[h].mid, chains[h].last] ==> desc'[d] == desc[d])
    ensures h < NUM && chains[h].mid < NUM && chains[h].last < NUM
    ensures Requests(free', owner[h := -1][chains[h].mid := -1][chains[h].last := -1], desc',
                     info[h := info[h].(b := NOBUF)], busy, atDevice, chains - {h})
  {
    hide Partition, Linked, Busy;
    ChainFreed(free, owner, desc, chains, h, free', desc');
    BusyRemove(chains, info, busy, h, info[h := info[h].(b := NOBUF)]);
  }

  ghost predicate AtDevice(chains: map<nat, Chain>, atDevice: set<nat>) {
    forall h :: h in atDevice <==> h in chains && chains[h].stage == Fetched
  }

  /** What the device may do on its own. */
  datatype Act = Fetch | Complete(h: nat)

  /** What the device works on: the requests, how many heads it has fetched and which it has returned. */
  datatype DeviceView = DeviceView(chains: map<nat, Chain>, fetched: nat, returned: seq<nat>)

  /** It fetches the oldest head it has not, or completes one that it has. */
  function Acted(v: DeviceView, offered: seq<nat>, a: Act): DeviceView {
    match a
    case Fetch =>
      if v.fetched < |offered| && offered[v.fetched] in v.chains then
        v.(chains := Staged(v.chains, offered[v.fetched], Fetched), fetched := v.fetched + 1)
      else v
    case Complete(h) =>
      if h in v.chains && v.chains[h].stage == Fetched then
        v.(chains := Staged(v.chains, h, Completed), returned := v.returned + [h])
      else v
  }

  function AllActed(v: DeviceView, offered: seq<nat>, acts: seq<Act>): DeviceView {
    if acts == [] then v else Acted(AllActed(v, offered, acts[..|acts| - 1]), offered, acts[|acts| - 1])
  }

  /** The indices tell the device whether a head is waiting. */
  lemma Pending(ring: seq<nat>, idx: nat, log: seq<nat>, from: nat, chains: map<nat, Chain>, stage: Stage)
    requires InRing(ring, idx, log, from, chains, stage)
    ensures Idx16(from) != idx <==> from < |log|
    ensures from < |log| ==> log[from] in chains
  {
    hide Idx16, Slot;
    IndexWraps(|log|, from);
  }

  lemma HeldByDevice(free: seq<bool>, owner: seq<int>, desc: seq<Desc>, info: seq<Info>, busy: set<nat>,
                     atDevice: set<nat>, chains: map<nat, Chain>, h: nat)
    requires Requests(free, owner, desc, info, busy, atDevice, chains)
    ensures h in atDevice <==> h in chains && chains[h].stage == Fetched
  {
    hide Partition, Linked, Busy;
  }

  function Rank(stage: Stage): nat {
    match stage
    case Queued => 0
    case Fetched => 1
    case Completed => 2
    case Seen => 3
  }

  /** The same chains with the same descriptors and buffers, none further back than it was. */
  ghost predicate Progress(chains: map<nat, Chain>, chains': map<nat, Chain>) {
    forall h :: (h in chains' <==> h in chains)
                && (h in chains ==> chains'[h] == chains[h].(stage := chains'[h].stage)
                                    && Rank(chains[h].stage) <= Rank(chains'[h].stage))
  }

  lemma NoProgress(chains: map<nat, Chain>)
    ensures Progress(chains, chains)
  {
  }

  lemma MoreProgress(chains: map<nat, Chain>, chains1: map<nat, Chain>, h: nat, stage: Stage)
    requires Progress(chains, chains1) && h in chains1 && Rank(chains1[h].stage) <= Rank(stage)
    ensures Progress(chains, Staged(chains1, h, stage))
  {
  }

  lemma ProgressAgain(chains: map<nat, Chain>, chains1: map<nat, Chain>, chains2: map<nat, Chain>)
    requires Progress(chains, chains1) && Progress(chains1, chains2)
    ensures Progress(chains, chains2)
  {
  }

  lemma BusyFacts(chains: map<nat, Chain>, info: seq<Info>, busy: set<nat>, h: nat)
    requires Busy(chains, info, busy) && h in chains && h < NUM && chains[h].stage == Completed
    ensures info[h].b == chains[h].buf && info[h].status == 0 && chains[h].buf in busy
  {
  }

  /** A chain is a path of three descriptors. */
  lemma ChainLinks(free: seq<bool>, owner: seq<int>, desc: seq<Desc>, chains: map<nat, Chain>, h: nat)
    requires Partition(free, owner, chains) && Linked(desc, chains) && h in chains
    ensures h < NUM && chains[h].mid < NUM && chains[h].last < NUM
    ensures Path(free, desc, [h, chains[h].mid, chains[h].last])
  {
    ChainTaken(free, owner, chains, h);
    assert ChainOk(owner, chains, h);
  }

  /** Freeing a chain's path takes the chain out of the partition. */
  lemma ChainFreed(free: seq<bool>, owner: seq<int>, desc: seq<Desc>, chains: map<nat, Chain>, h: nat, free': seq<bool>,
                   desc': seq<Desc>)
    requires Partition(free, owner, chains) && Linked(desc, chains) && h in chains && |free'| == NUM && |desc'| == NUM
    requires forall d: nat :: d < NUM ==>
               && free'[d] == (free[d] || d in [h, chains[h].mid, chains[h].last])
               && (d !in [h, chains[h].mid, chains[h].last] ==> desc'[d] == desc[d])
    ensures h < NUM && chains[h].mid < NUM && chains[h].last < NUM
    ensures Partition(free', owner[h := -1][chains[h].mid := -1][chains[h].last := -1], chains - {h})
    ensures Linked(desc', chains - {h})
  {
    hide Partition, Linked;
    var c := chains[h];
    PartitionRemove(free, owner, chains, h);
    assert free' == free[h := true][c.mid := true][c.last := true];
    LinkedRemove(free, owner, desc, chains, h, desc');
  }

  /** Different descriptors in use, each but the last linked to the next. */
  ghost predicate Path(free: seq<bool>, desc: seq<Desc>, path: seq<nat>)
    requires |free| == NUM && |desc| == NUM
    ensures Path(free, desc, path) ==> |path| > 0
  {
    && |path| > 0 && (forall k :: 0 <= k < |path| ==> path[k] < NUM && !free[path[k]])
    && (forall j, k :: 0 <= j < k < |path| ==> path[j] != path[k])
    && (forall j, k :: 0 <= j && k == j + 1 < |path| ==> HasNext(desc[path[j]].flags) && desc[path[j]].next == path[k])
    && !HasNext(desc[path[|path| - 1]].flags)
  }

  /** d is among the first k of path. */
  ghost predicate Visited(path: seq<nat>, k: nat, d: nat) {
    exists j :: 0 <= j < k && j < |path| && path[j] == d
  }

  lemma PathStarts(free: seq<bool>, desc: seq<Desc>, path: seq<nat>)
    requires |free| == NUM && |desc| == NUM && Path(free, desc, path)
    ensures path[0] < NUM && forall d: nat :: !Visited(path, 0, d)
  {
  }

  lemma PathStep(free: seq<bool>, desc: seq<Desc>, path: seq<nat>, k: nat)
    requires |free| == NUM && |desc| == NUM && Path(free, desc, path) && k < |path|
    ensures path[k] < NUM && !free[path[k]] && !Visited(path, k, path[k])
    ensures HasNext(desc[path[k]].flags) <==> k + 1 < |path|
    ensures k + 1 < |path| ==> desc[path[k]].next == path[k + 1] < NUM
    ensures forall d: nat :: Visited(path, k + 1, d) <==> Visited(path, k, d) || d == path[k]
  {
    assert k + 1 < |path| ==> HasNext(desc[path[k]].flags) && desc[path[k]].next == path[k + 1];
    forall d: nat ensures Visited(path, k + 1, d) <==> Visited(path, k, d) || d == path[k] {
    }
  }

  lemma VisitedAll(path: seq<nat>)
    ensures forall d: nat :: Visited(path, |path|, d) <==> d in path
  {
  }

  lemma BusyStaged(chains: map<nat, Chain>, info: seq<Info>, busy: set<nat>, h: nat, stage: Stage, info': seq<Info>)
    requires Busy(chains, info, busy) && h in chains && h < NUM && chains[h].stage != Seen && stage != Seen
    requires |info'| == NUM && info' == info[h := info'[h]] && info'[h].b == info[h].b
    requires (stage == Completed ==> info'[h].status == 0)
    ensures Busy(Staged(chains, h, stage), info', busy)
  {
    var chains' := Staged(chains, h, stage);
    forall b | b in busy ensures exists g :: g in chains' && chains'[g].buf == b && chains'[g].stage != Seen {
      var g :| g in chains && chains[g].buf == b && chains[g].stage != Seen;
      assert chains'[g].buf == b && chains'[g].stage != Seen;
    }
  }

  lemma BusySeen(chains: map<nat, Chain>, info: seq<Info>, busy: set<nat>, h: nat)
    requires Busy(chains, info, busy) && h in chains && h < NUM && chains[h].stage == Completed
    ensures Busy(Staged(chains, h, Seen), info, busy - {chains[h].buf})
  {
    var chains' := Staged(chains, h, Seen);
    forall b | b in busy - {chains[h].buf}
      ensures exists g :: g in chains' && chains'[g].buf == b && chains'[g].stage != Seen
    {
      var g :| g in chains && chains[g].buf == b && chains[g].stage != Seen;
      assert chains'[g].buf == b && chains'[g].stage != Seen;
    }
  }

  lemma BusyRemove(chains: map<nat, Chain>, info: seq<Info>, busy: set<nat>, h: nat, info': seq<Info>)
    requires Busy(chains, info, busy) && h in chains && h < NUM && chains[h].buf !in busy && |info'| == NUM
    requires info' == info[h := info'[h]]
    ensures chains[h].stage == Seen && Busy(chains - {h}, info', busy)
  {
    var chains' := chains - {h};
    forall b | b in busy ensures exists g :: g in chains' && chains'[g].buf == b && chains'[g].stage != Seen {
      var g :| g in chains && chains[g].buf == b && chains[g].stage != Seen;
      assert chains'[g].buf == b && chains'[g].stage != Seen;
    }
  }

  lemma NoneLeft(ring: seq<nat>, idx: nat, log: seq<nat>, from: nat, chains: map<nat, Chain>)
    requires InRing(ring, idx, log, from, chains, Completed) && from == |log|
    ensures forall h :: h in chains ==> chains[h].stage != Completed
  {
  }

  lemma LinkedRemove(free: seq<bool>, owner: seq<int>, desc: seq<Desc>, chains: map<nat, Chain>, h: nat,
                     desc': seq<Desc>)
    requires Partition(free, owner, chains) && Linked(desc, chains) && h in chains && |desc'| == NUM
    requires forall i: nat :: i < NUM && !InChain(chains, h, i) ==> desc'[i] == desc[i]
    ensures Linked(desc', chains - {h})
  {
    assert ChainOk(owner, chains, h);
    forall g | g in chains && g != h ensures g < NUM && chains[g].mid < NUM && chains[g].last < NUM
      ensures !InChain(chains, h, g) && !InChain(chains, h, chains[g].mid) && !InChain(chains, h, chains[g].last) {
      assert ChainOk(owner, chains, g);
    }
  }

  lemma ChainBounds(free: seq<bool>, owner: seq<int>, chains: map<nat, Chain>)
    requires Partition(free, owner, chains)
    ensures forall h :: h in chains ==> h < NUM
  {
    forall h | h in chains ensures h < NUM {
      assert ChainOk(owner, chains, h);
    }
  }

  lemma LinkedSame(free: seq<bool>, owner: seq<int>, chains: map<nat, Chain>, desc: seq<Desc>, desc': seq<Desc>)
    requires Partition(free, owner, chains) && Linked(desc, chains) && |desc'| == NUM
    requires forall i: nat :: i < NUM && !free[i] ==> desc'[i] == desc[i]
    ensures Linked(desc', chains)
  {
    forall h | h in chains
      ensures h < NUM && chains[h].mid < NUM && chains[h].last < NUM && !free[h] && !free[chains[h].mid]
      ensures !free[chains[h].last]
    {
      ChainTaken(free, owner, chains, h);
    }
  }

  lemma LinkedAdd(free: seq<bool>, owner: seq<int>, desc: seq<Desc>, chains: map<nat, Chain>, idx: seq<nat>, c: Chain,
                  desc': seq<Desc>)
    requires Partition(free, owner, chains) && Linked(desc, chains) && |idx| == 3 && c.mid == idx[1] && c.last == idx[2]
    requires forall k :: 0 <= k < 3 ==> idx[k] < NUM && free[idx[k]]
    requires forall j, k :: 0 <= j < k < 3 ==> idx[j] != idx[k]
    requires |desc'| == NUM && (forall i: nat :: i < NUM && i !in idx ==> desc'[i] == desc[i])
    requires HasNext(desc'[idx[0]].flags) && desc'[idx[0]].next == idx[1]
    requires HasNext(desc'[idx[1]].flags) && desc'[idx[1]].next == idx[2] && !HasNext(desc'[idx[2]].flags)
    ensures Linked(desc', chains[idx[0] := c])
  {
    assert forall i: nat :: i < NUM && !free[i] ==> i !in idx;
    LinkedSame(free, owner, chains, desc, desc');
  }

  lemma BusyAdd(chains: map<nat, Chain>, info: seq<Info>, busy: set<nat>, h: nat, c: Chain, info': seq<Info>,
                busy': set<nat>)
    requires Busy(chains, info, busy) && h !in chains && h < NUM && c.stage == Queued
    requires (forall g :: g in chains ==> chains[g].buf != c.buf)
    requires |info'| == NUM && info' == info[h := info'[h]] && info'[h].b == c.buf && busy' == busy + {c.buf}
    ensures Busy(chains[h := c], info', busy')
  {
    var chains' := chains[h := c];
    forall b | b in busy' ensures exists g :: g in chains' && chains'[g].buf == b && chains'[g].stage != Seen {
      if b == c.buf {
        assert chains'[h].buf == b;
      } else {
        var g :| g in chains && chains[g].buf == b && chains[g].stage != Seen;
        assert chains'[g].buf == b && chains'[g].stage != Seen;
      }
    }
  }
}
