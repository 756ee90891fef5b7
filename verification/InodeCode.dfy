/**
 The inode layer as the kernel runs it: methods that update the bitmap, the blocks and the
 inodes in place. `logged` collects the blocks handed to log_write. A copy from or to user
 memory that fails has copied what lies before the first inaccessible page.
 */
module InodeCode {
  import opened Params
  import opened InodeSpec
  import opened InodeWrites

  const BPB := BSIZE * 8
  const IPB := 16

  /** n blocks from first on. */
  function Span(first: nat, n: nat): (r: set<nat>)
    ensures |r| == n && forall b: nat :: b in r <==> first <= b < first + n
  {
    if n == 0 then {} else Span(first, n - 1) + {first + n - 1}
  }

  ghost function TableOf(fs: Fs, i: nat): set<nat>
    requires Shaped(fs) && i < |fs.inodes|
  {
    if Ptr(fs, i, NDIRECT) == 0 then {} else {Ptr(fs, i, NDIRECT)}
  }

  /** Between fs and fs' inode i got its indirect block. */
  ghost predicate GotTable(fs: Fs, fs': Fs, i: nat)
    requires Shaped(fs) && Shaped(fs') && i < |fs.inodes| && i < |fs'.inodes|
  {
    Ptr(fs, i, NDIRECT) == 0 && Ptr(fs', i, NDIRECT) != 0
  }

  /** A copy that failed half way over an existing block: the piece is in the cached block, and nothing was logged. */
  ghost predicate Torn(fs: Fs, fs': Fs, i: nat, o: nat, piece: seq<Byte>, was: set<nat>, now: set<nat>)
    requires Sound(fs) && i < |fs.inodes| && o < MAXFILE * BSIZE && o % BSIZE + |piece| <= BSIZE
  {
    var addr := Ptr(fs, i, SlotOf(o / BSIZE));
    addr != 0 ==> addr < |fs.data| && now == was && fs' == Patched(fs, addr, o % BSIZE, piece)
  }

  /**
   What one transaction handed to log_write, what it changed in the cache without, and the file
   system before and after it.
   */
  datatype Transaction = Transaction(blocks: set<nat>, loose: set<nat>, before: Fs, after: Fs)

  /** The two words of an on-disk inode in front of its size: type and major, minor and link count. */
  datatype Head = Head(first: int, second: int)

  /** b with s written over it at position p. */
  function Overlaid(b: seq<Byte>, p: nat, s: seq<Byte>): seq<Byte>
    requires p + |s| <= |b|
  {
    b[..p] + s + b[p + |s|..]
  }

  /**
   A torn piece at o, since fs: its block alone is loose, and if that is not logged it holds the
   piece over what it held before.
   */
  ghost predicate TornAt(fs: Fs, fs': Fs, i: nat, o: nat, piece: seq<Byte>, now: set<nat>, loose: set<nat>)
    requires Shaped(fs') && i < |fs'.inodes|
  {
    && o < MAXFILE * BSIZE && o % BSIZE + |piece| <= BSIZE
    && var a := Ptr(fs', i, SlotOf(o / BSIZE));
    && loose == {a} && a != 0 && a < |fs.data| && a < |fs'.data|
    && (a !in now ==> fs'.data[a] == Overlaid(fs.data[a], o % BSIZE, piece))
  }

  /** The torn piece is harmless: its block is logged after all, or it held these bytes already. */
  ghost predicate Harmless(fs: Fs, fs': Fs, i: nat, o: nat, piece: seq<Byte>, now: set<nat>)
    requires Shaped(fs') && i < |fs'.inodes| && o < MAXFILE * BSIZE && o % BSIZE + |piece| <= BSIZE
    requires Ptr(fs', i, SlotOf(o / BSIZE)) < |fs.data|
  {
    var a := Ptr(fs', i, SlotOf(o / BSIZE));
    var b: seq<Byte> := fs.data[a];
    a in now || b[o % BSIZE..o % BSIZE + |piece|] == piece
  }

  class FileSystem {
    const meta: nat
    const bmapstart: nat
    const inodestart: nat
    const heads: seq<Head>   // of the inodes; no write changes them
    var used: seq<bool>
    var data: seq<Block>
    var inodes: seq<Inode>
    ghost var logged: set<nat>
    ghost var history: seq<Transaction>

    constructor (fs: Fs, bmapstart: nat, inodestart: nat, heads: seq<Head>)
      ensures Value() == fs && logged == {} && history == []
      ensures this.bmapstart == bmapstart && this.inodestart == inodestart && this.heads == heads
    {
      meta, used, data, inodes, this.heads := fs.meta, fs.used, fs.data, fs.inodes, heads;
      this.bmapstart, this.inodestart, logged, history := bmapstart, inodestart, {}, [];
    }

    function Value(): Fs
      reads this
    {
      Fs(meta, used, data, inodes)
    }

    /** The bitmap block with the bit of block b. */
    function BitmapBlock(b: nat): nat {
      b / BPB + bmapstart
    }

    /** Every block that differs between fs and fs' was handed to log_write, but for those of inode i. */
    ghost predicate Tracked(fs: Fs, fs': Fs, i: nat, blocks: set<nat>) {
      && fs'.meta == fs.meta && |fs'.used| == |fs.used| && |fs'.data| == |fs.data| && |fs'.inodes| == |fs.inodes|
      && (forall b :: 0 <= b < |fs.used| && fs'.used[b] != fs.used[b] ==> BitmapBlock(b) in blocks)
      && (forall b :: 0 <= b < |fs.data| && fs'.data[b] != fs.data[b] ==> b in blocks)
      && (forall j :: 0 <= j < |fs.inodes| && fs'.inodes[j] != fs.inodes[j] ==> j == i)
    }

    lemma StillTracked(fs: Fs, i: nat, blocks: set<nat>)
      ensures Tracked(fs, fs, i, blocks)
    {
    }

    lemma PatchedTracked(fs: Fs, fs': Fs, i: nat, some: set<nat>, addr: nat, o: nat, s: seq<Byte>, all: set<nat>)
      requires Tracked(fs, fs', i, some) && some <= all && addr < |fs'.data| && o + |s| <= BSIZE
      requires addr in all || s == []
      ensures Tracked(fs, Patched(fs', addr, o, s), i, all)
    {
      var b: seq<Byte> := fs'.data[addr];
      assert s == [] ==> b[..o] + s + b[o + |s|..] == b;
    }

    /** After a torn piece the log carries every change of the call exactly if the piece is harmless. */
    lemma TornUnlogged(fs: Fs, fs': Fs, i: nat, o: nat, piece: seq<Byte>, now: set<nat>, loose: set<nat>)
      requires Sound(fs') && i < |fs'.inodes| && TornAt(fs, fs', i, o, piece, now, loose)
      requires Tracked(fs, fs', i, now + loose) && Areas(fs)
      ensures Tracked(fs, fs', i, now) <==> Harmless(fs, fs', i, o, piece, now)
    {
      var a, p := Ptr(fs', i, SlotOf(o / BSIZE)), o % BSIZE;
      var b: seq<Byte>, b': seq<Byte> := fs.data[a], fs'.data[a];
      assert fs.meta <= a;
      if a !in now {
        assert b'[p..p + |piece|] == piece;
        if b[p..p + |piece|] == piece {
          assert b' == b;
        }
      }
    }

    /** A torn piece of a round is torn since the start of the call: before it only logged blocks had changed. */
    lemma TornSince(fs: Fs, fs1: Fs, fs2: Fs, i: nat, o: nat, piece: seq<Byte>, was: set<nat>, now: set<nat>)
      requires Sound(fs1) && Sound(fs2) && i < |fs1.inodes| == |fs2.inodes| && Tracked(fs, fs1, i, was)
      requires |fs2.data| == |fs1.data|
      requires o < MAXFILE * BSIZE && o % BSIZE + |piece| <= BSIZE && Torn(fs1, fs2, i, o, piece, was, now)
      requires Ptr(fs2, i, SlotOf(o / BSIZE)) != 0
      requires Ptr(fs1, i, SlotOf(o / BSIZE)) == 0 ==> Ptr(fs2, i, SlotOf(o / BSIZE)) in now
      ensures TornAt(fs, fs2, i, o, piece, now, {Ptr(fs2, i, SlotOf(o / BSIZE))})
    {
      if Ptr(fs1, i, SlotOf(o / BSIZE)) != 0 {
        PatchedSound(fs1, i, SlotOf(o / BSIZE), o % BSIZE, piece);
      }
    }

    /** The areas from the first inode block on: inodes, bitmap, data. */
    ghost predicate Areas(fs: Fs) {
      && inodestart <= bmapstart <= fs.meta <= |fs.data| && |fs.used| == |fs.data|
      && (forall c: nat :: c < |fs.used| ==> BitmapBlock(c) < fs.meta)
      && (forall i: nat :: i < |fs.inodes| ==> InodeBlock(i) < bmapstart)
    }

    ghost predicate InAreas(fs: Fs, blocks: set<nat>) {
      forall b :: b in blocks ==> inodestart <= b < |fs.data|
    }

    /** Only blocks of these areas were logged between `was` and `now`. */
    ghost predicate Placed(fs: Fs, was: set<nat>, now: set<nat>) {
      Areas(fs) && InAreas(fs, was) ==> InAreas(fs, now)
    }

    lemma StillPlaced(fs: Fs, blocks: set<nat>)
      ensures Placed(fs, blocks, blocks)
    {
    }

    lemma PlacedTwice(fs: Fs, fs1: Fs, i: nat, blocks: set<nat>, was: set<nat>, mid: set<nat>, now: set<nat>)
      requires Placed(fs, was, mid) && Placed(fs1, mid, now) && Tracked(fs, fs1, i, blocks)
      ensures Placed(fs, was, now)
    {
    }

    lemma PlacedInode(fs: Fs, was: set<nat>, now: set<nat>, i: nat)
      requires Placed(fs, was, now) && i < |fs.inodes|
      ensures Placed(fs, was, now + {InodeBlock(i)})
    {
    }

    lemma PlacedPtr(fs: Fs, was: set<nat>, i: nat, k: nat)
      requires Sound(fs) && i < |fs.inodes| && k < SLOTS && Ptr(fs, i, k) != 0
      ensures Placed(fs, was, was + {Ptr(fs, i, k)}) && Placed(fs, was, was)
    {
    }

    /** A free block and its bitmap block; a pointer of an inode. */
    lemma PlacedBlock(fs: Fs, was: set<nat>, b: nat)
      requires Sound(fs) && b < |fs.data| && (!fs.used[b] || fs.meta <= b)
      ensures Placed(fs, was, was + {BitmapBlock(b), b}) && Placed(fs, was, was + {b})
    {
    }

    lemma ResizedTracked(fs: Fs, fs': Fs, i: nat, some: set<nat>, size: nat, all: set<nat>)
      requires Tracked(fs, fs', i, some) && some <= all && i < |fs'.inodes|
      ensures Tracked(fs, Resized(fs', i, size), i, all)
    {
    }

    lemma TrackedTwice(fs: Fs, fs1: Fs, fs2: Fs, i: nat, some: set<nat>, all: set<nat>)
      requires Tracked(fs, fs1, i, some) && Tracked(fs1, fs2, i, all) && some <= all
      ensures Tracked(fs, fs2, i, all)
    {
    }

    /** The same with the inodes: what is not loose is carried by the transaction. */
    ghost predicate Covers(t: Transaction) {
      exists i :: Tracked(t.before, t.after, i, t.blocks + t.loose)
                  && (t.after.inodes != t.before.inodes ==> InodeBlock(i) in t.blocks)
    }

    /** The block with inode i. */
    function InodeBlock(i: nat): nat {
      i / IPB + inodestart
    }

    /** Finds the first free block, marks it used and zeroes it; 0 means that the disk is full. */
    method Balloc() returns (r: nat)
      requires Shaped(Value()) && used[0]
      modifies this`used, this`data, this`logged
      ensures r == 0 ==> Value() == old(Value()) && logged == old(logged) && forall c :: 0 <= c < |used| ==> used[c]
      ensures r != 0 ==>
        && r < |old(used)| && !old(used)[r] && (forall c :: 0 <= c < r ==> old(used)[c])
        && used == old(used)[r := true] && data == old(data)[r := Zeros()]
        && logged == old(logged) + {BitmapBlock(r), r}
    {
      var b := 0;
      while b < |used|
        invariant 0 <= b && b % BPB == 0
        invariant forall c :: 0 <= c < b && c < |used| ==> used[c]
        invariant Value() == old(Value()) && logged == old(logged)
      {
        var bi := 0;
        while bi < BPB && b + bi < |used|
          invariant 0 <= bi <= BPB
          invariant forall c :: 0 <= c < b + bi && c < |used| ==> used[c]
          invariant Value() == old(Value()) && logged == old(logged)
        {
          if !used[b + bi] {
            used := used[b + bi := true];
            logged := logged + {BitmapBlock(b + bi)};
            data := data[b + bi := Zeros()];
            logged := logged + {b + bi};
            return b + bi;
          }
          bi := bi + 1;
        }
        b := b + BPB;
      }
      return 0;
    }

    /** Clears the bit of block b, which must be set. */
    method Bfree(b: nat) returns (panics: bool)
      requires b < |used|
      modifies this`used, this`logged
      ensures panics <==> !old(used)[b]
      ensures used == if panics then old(used) else old(used)[b := false]
      ensures logged == if panics then old(logged) else old(logged) + {BitmapBlock(b)}
    {
      if !used[b] {
        return true;
      }
      used := used[b := false];
      logged := logged + {BitmapBlock(b)};
      return false;
    }

    /** Allocates a block for an empty address of an inode. */
    method AllocAddress(i: nat, k: nat) returns (addr: nat)
      requires Sound(Value()) && i < |inodes| && k <= NDIRECT && Ptr(Value(), i, k) == 0
      modifies this`used, this`data, this`inodes, this`logged
      ensures addr == 0 ==> Value() == old(Value()) && logged == old(logged) && forall c :: 0 <= c < |used| ==> used[c]
      ensures addr != 0 ==>
        && Attachable(old(Value()), i, k, addr) && Value() == Attached(old(Value()), i, k, addr)
        && logged == old(logged) + {BitmapBlock(addr), addr}
      ensures Tracked(old(Value()), Value(), i, logged) && Placed(old(Value()), old(logged), logged)
    {
      addr := Balloc();
      if addr != 0 {
        PlacedBlock(old(Value()), old(logged), addr);
        inodes := inodes[i := Inode(inodes[i].size, inodes[i].addrs[k := addr])];
      }
    }

    /** Allocates a block for an empty entry of the indirect block. */
    method AllocEntry(i: nat, k: nat) returns (addr: nat)
      requires Sound(Value()) && i < |inodes| && NDIRECT < k < SLOTS && Ptr(Value(), i, k) == 0
      requires Ptr(Value(), i, NDIRECT) != 0
      modifies this`used, this`data, this`inodes, this`logged
      ensures addr == 0 ==> Value() == old(Value()) && logged == old(logged) && forall c :: 0 <= c < |used| ==> used[c]
      ensures addr != 0 ==>
        && Attachable(old(Value()), i, k, addr) && Value() == Attached(old(Value()), i, k, addr)
        && logged == old(logged) + {BitmapBlock(addr), addr, Ptr(old(Value()), i, NDIRECT)}
      ensures Tracked(old(Value()), Value(), i, logged) && Placed(old(Value()), old(logged), logged)
    {
      var table := inodes[i].addrs[NDIRECT];
      addr := Balloc();
      if addr != 0 {
        PlacedBlock(old(Value()), old(logged), addr);
        PlacedBlock(old(Value()), logged, table);
        data := data[table := SetWord(data[table], k - NDIRECT - 1, addr)];
        logged := logged + {table};
      }
    }

    /** The part of Bmap for blocks behind the indirect block. */
    method BmapIndirect(i: nat, bn: nat) returns (addr: nat, ghost maps: set<nat>)
      requires Sound(Value()) && i < |inodes| && NDIRECT <= bn < MAXFILE
      modifies this`used, this`data, this`inodes, this`logged
      ensures Sound(Value()) && KeepsBytes(old(Value()), Value())
      ensures old(logged) <= logged && Tracked(old(Value()), Value(), i, logged)
      ensures Placed(old(Value()), old(logged), logged)
      ensures addr != 0 ==> addr == Ptr(Value(), i, SlotOf(bn)) && addr < |data|
      ensures addr != 0 && Ptr(old(Value()), i, SlotOf(bn)) == 0 ==> addr in logged
      ensures addr == 0 ==> forall c :: 0 <= c < |used| ==> used[c]
      ensures Ptr(old(Value()), i, SlotOf(bn)) != 0 ==>
        addr == Ptr(old(Value()), i, SlotOf(bn)) && Value() == old(Value()) && logged == old(logged)
      ensures TableOf(old(Value()), i) <= TableOf(Value(), i)
      ensures logged <= old(logged) + maps + (if addr == 0 then {} else {addr}) + TableOf(Value(), i)
      ensures
        var created := addr != 0 && Ptr(old(Value()), i, SlotOf(bn)) == 0;
        |maps| <= Count(created) + Count(GotTable(old(Value()), Value(), i))
    {
      hide Tracked, Placed;
      maps := {};
      var table := inodes[i].addrs[NDIRECT];
      StillTracked(Value(), i, logged);
      StillPlaced(Value(), logged);
      if table == 0 {
        table := AllocAddress(i, NDIRECT);
        if table == 0 {
          return 0, {};
        }
        AttachedKeepsBytes(old(Value()), i, NDIRECT, table);
        AttachedPtr(old(Value()), i, NDIRECT, table);
        maps := {BitmapBlock(table)};
      }
      ghost var mid, was := Value(), logged;
      addr := WordAt(data[table], bn - NDIRECT);
      if addr == 0 {
        addr := AllocEntry(i, bn + 1);
        PlacedTwice(old(Value()), mid, i, was, old(logged), was, logged);
        TrackedTwice(old(Value()), mid, Value(), i, was, logged);
        if addr != 0 {
          AttachedKeepsBytes(mid, i, bn + 1, addr);
          AttachedPtr(mid, i, bn + 1, addr);
          maps := maps + {BitmapBlock(addr)};
        }
      }
    }

    /**
     The address of block number bn of inode i, allocating it, and the indirect block, if
     they do not exist. `maps` holds the bitmap blocks that were logged.
     */
    method Bmap(i: nat, bn: nat) returns (addr: nat, ghost maps: set<nat>)
      requires Sound(Value()) && i < |inodes| && bn < MAXFILE
      modifies this`used, this`data, this`inodes, this`logged
      ensures Sound(Value()) && KeepsBytes(old(Value()), Value())
      ensures old(logged) <= logged && Tracked(old(Value()), Value(), i, logged)
      ensures Placed(old(Value()), old(logged), logged)
      ensures addr != 0 ==> addr == Ptr(Value(), i, SlotOf(bn)) && addr < |data|
      ensures addr != 0 && Ptr(old(Value()), i, SlotOf(bn)) == 0 ==> addr in logged
      ensures addr == 0 ==> forall c :: 0 <= c < |used| ==> used[c]
      ensures Ptr(old(Value()), i, SlotOf(bn)) != 0 ==>
        addr == Ptr(old(Value()), i, SlotOf(bn)) && Value() == old(Value()) && logged == old(logged)
      ensures TableOf(old(Value()), i) <= TableOf(Value(), i)
      ensures logged <= old(logged) + maps + (if addr == 0 then {} else {addr}) + TableOf(Value(), i)
      ensures
        var created := addr != 0 && Ptr(old(Value()), i, SlotOf(bn)) == 0;
        |maps| <= Count(created) + Count(GotTable(old(Value()), Value(), i))
    {
      maps := {};
      if bn < NDIRECT {
        addr := inodes[i].addrs[bn];
        if addr == 0 {
          addr := AllocAddress(i, bn);
          if addr == 0 {
            return 0, {};
          }
          AttachedKeepsBytes(old(Value()), i, bn, addr);
          AttachedPtr(old(Value()), i, bn, addr);
          maps := {BitmapBlock(addr)};
        }
        return;
      }
      addr, maps := BmapIndirect(i, bn);
    }

    /** The blocks of a bitmap with n bits. */
    function Bitmap(n: nat): set<nat> {
      Span(bmapstart, (n + BPB - 1) / BPB)
    }

    /** Since fs, every mark that changed was logged, and nothing but bitmap blocks was. */
    ghost predicate MarksLogged(fs: Fs, used: seq<bool>, was: set<nat>, now: set<nat>) {
      && |used| == |fs.used| && was <= now <= was + Bitmap(|used|)
      && forall b :: 0 <= b < |used| && used[b] != fs.used[b] ==> BitmapBlock(b) in now
    }

    lemma NoMark(fs: Fs, now: set<nat>)
      ensures MarksLogged(fs, fs.used, now, now)
    {
    }

    lemma OneMark(fs: Fs, used: seq<bool>, was: set<nat>, now: set<nat>, b: nat)
      requires MarksLogged(fs, used, was, now) && b < |used|
      ensures MarksLogged(fs, used[b := false], was, now + {BitmapBlock(b)})
    {
    }

    lemma AllMarked(fs: Fs, fs': Fs, i: nat, was: set<nat>, now: set<nat>)
      requires MarksLogged(fs, fs'.used, was, now) && fs'.data == fs.data && fs'.meta == fs.meta && i < |fs.inodes|
      requires |fs'.inodes| == |fs.inodes| && fs'.inodes == fs.inodes[i := fs'.inodes[i]]
      ensures Tracked(fs, fs', i, now + {InodeBlock(i)}) && was <= now <= was + Bitmap(|fs'.used|)
    {
    }

    /** The first loop of truncation: frees the direct blocks. */
    method FreeDirect(i: nat) returns (panics: bool, ghost freed: set<nat>)
      requires Sound(Value()) && i < |inodes|
      modifies this`used, this`data, this`inodes, this`logged
      ensures !panics && data == old(data) && |inodes| == |old(inodes)|
      ensures FreedSlots(old(Value()), i, used, freed) && forall m: nat :: m in freed <==> m < NDIRECT
      ensures inodes == old(inodes)[i := inodes[i]] && inodes[i].addrs[NDIRECT] == old(inodes)[i].addrs[NDIRECT]
      ensures forall m :: 0 <= m < NDIRECT ==> inodes[i].addrs[m] == 0
      ensures MarksLogged(old(Value()), used, old(logged), logged)
    {
      hide MarksLogged;
      ghost var fs := Value();
      NoMark(fs, logged);
      freed, panics := {}, false;
      for k := 0 to NDIRECT
        invariant !panics && data == fs.data && |inodes| == |fs.inodes|
        invariant MarksLogged(fs, used, old(logged), logged)
        invariant FreedSlots(fs, i, used, freed) && forall m: nat :: m in freed <==> m < k
        invariant inodes == fs.inodes[i := inodes[i]]
        invariant forall m :: 0 <= m <= NDIRECT ==> inodes[i].addrs[m] == if m < k then 0 else fs.inodes[i].addrs[m]
      {
        FreeSlot(fs, i, used, freed, k);
        if inodes[i].addrs[k] != 0 {
          OneMark(fs, used, old(logged), logged, inodes[i].addrs[k]);
          var p := Bfree(inodes[i].addrs[k]);
          panics := panics || p;
          inodes := inodes[i := Inode(inodes[i].size, inodes[i].addrs[k := 0])];
        }
        freed := freed + {k};
      }
    }

    /** The second loop: frees the blocks in the indirect block. */
    method FreeEntries(i: nat, table: nat, ghost fs: Fs, ghost before: set<nat>, ghost was: set<nat>)
      returns (panics: bool, ghost freed: set<nat>)
      requires Sound(fs) && i < |fs.inodes| && data == fs.data && table == Ptr(fs, i, NDIRECT) != 0
      requires FreedSlots(fs, i, used, before) && forall m: nat :: m in before <==> m < NDIRECT
      requires MarksLogged(fs, used, was, logged)
      modifies this`used, this`logged
      ensures !panics && FreedSlots(fs, i, used, freed) && MarksLogged(fs, used, was, logged)
      ensures forall m: nat :: m in freed <==> m < SLOTS && m != NDIRECT
    {
      hide MarksLogged, FreedSlots, Sound, Ptr;
      freed, panics := before, false;
      for j := 0 to NINDIRECT
        invariant !panics && FreedSlots(fs, i, used, freed) && MarksLogged(fs, used, was, logged)
        invariant forall m: nat :: m in freed <==> m < NDIRECT || NDIRECT < m <= NDIRECT + j
      {
        FreeSlot(fs, i, used, freed, NDIRECT + 1 + j);
        EntryOf(fs, i, j);
        var a := WordAt(data[table], j);
        if a != 0 {
          OneMark(fs, used, was, logged, a);
          var p := Bfree(a);
          panics := panics || p;
        }
        freed := freed + {NDIRECT + 1 + j};
      }
    }

    /** Frees every block of an inode and sets its size to 0; the log carries all of it. */
    method Itrunc(i: nat) returns (panics: bool)
      requires Sound(Value()) && i < |inodes|
      modifies this`used, this`data, this`inodes, this`logged
      ensures !panics
      ensures Truncated(old(Value()), i, Value()) && Sound(Value())
      ensures forall j :: 0 <= j < |inodes| ==> Content(Value(), j) == if j == i then [] else Content(old(Value()), j)
      ensures Tracked(old(Value()), Value(), i, logged) && InodeBlock(i) in logged
      ensures old(logged) <= logged <= old(logged) + Bitmap(|used|) + {InodeBlock(i)}
    {
      hide MarksLogged, Content, Tracked, Bitmap;
      ghost var fs := Value();
      ghost var freed;
      panics, freed := FreeDirect(i);
      if inodes[i].addrs[NDIRECT] != 0 {
        var table := inodes[i].addrs[NDIRECT];
        var p;
        p, freed := FreeEntries(i, table, fs, freed, old(logged));
        panics := panics || p;
        FreeSlot(fs, i, used, freed, NDIRECT);
        OneMark(fs, used, old(logged), logged, table);
        p := Bfree(table);
        panics := panics || p;
        freed := freed + {NDIRECT};
        inodes := inodes[i := Inode(inodes[i].size, inodes[i].addrs[NDIRECT := 0])];
      }
      assert inodes[i].addrs == NoAddrs();
      inodes := inodes[i := Inode(0, inodes[i].addrs)];
      AllMarked(fs, Value(), i, old(logged), logged);
      logged := logged + {InodeBlock(i)};
      assert Truncated(fs, i, Value());
      TruncatedFiles(fs, i, Value());
    }

    /** One round of a read: m bytes at o, within one block. The block is always found. */
    method ReadBlock(i: nat, o: nat, m: nat) returns (found: bool, piece: seq<Byte>)
      requires Sound(Value()) && i < |inodes| && 0 < m && o + m <= inodes[i].size && o % BSIZE + m <= BSIZE
      modifies this`used, this`data, this`inodes, this`logged
      ensures Value() == old(Value()) && logged == old(logged) && found && piece == Content(Value(), i)[o..o + m]
    {
      hide KeepsBytes, Content, TableOf, GotTable;
      ReadPiece(Value(), i, o, m);
      var addr, _ := Bmap(i, o / BSIZE);
      found := addr != 0;
      var b: seq<Byte> := data[addr];
      piece := b[o % BSIZE..o % BSIZE + m];
    }

    /**
     Reads at most n bytes at off, cut at the end of the file. `room` is how many bytes can be stored
     at the destination; it fails if that is less. No block is ever allocated.
     */
    method Readi(i: nat, off: nat, n: nat, room: nat) returns (r: int, dst: seq<Byte>)
      requires Sound(Value()) && i < |inodes| && off < UINT_MAX && n < UINT_MAX
      modifies this`used, this`data, this`inodes, this`logged
      ensures Value() == old(Value()) && logged == old(logged)
      ensures
        var want := Wanted(|Content(Value(), i)|, off, n);
        && r == (if room < want then -1 else want)
        && (want == 0 ==> dst == [])
        && (want > 0 ==> dst == Content(Value(), i)[off..off + Least(want, room)])
    {
      hide Sound, Content, Shaped;
      r, dst := 0, [];
      if off > inodes[i].size || (off + n) % UINT_MAX < off {
        return;
      }
      var n' := n;
      if off + n > inodes[i].size {
        n' := inodes[i].size - off;
      }
      ghost var c := Content(Value(), i);
      var tot := 0;
      while tot < n'
        invariant 0 <= tot <= n' && tot <= room && off + n' <= |c|
        invariant Value() == old(Value()) && logged == old(logged) && dst == c[off..off + tot]
        decreases n' - tot
      {
        var o := off + tot;
        var m := if n' - tot < BSIZE - o % BSIZE then n' - tot else BSIZE - o % BSIZE;
        var found, piece := ReadBlock(i, o, m);
        if !found {
          break;
        }
        var taken := if tot + m > room then room - tot else m;
        TakeJoin(c, off, o, m, taken);
        dst := dst + piece[..taken];
        if taken < m {
          return -1, dst;
        }
        tot := tot + m;
      }
      r := tot;
    }

    /**
     One round of the loop of a write: a piece that stays within one block goes into the cached
     block, which is logged if the copy was whole. The ghost arguments say what has been written
     since the state fs.
     */
    method WritePiece(i: nat, o: nat, piece: seq<Byte>, whole: bool, ghost fs: Fs, ghost off: nat, ghost s: seq<Byte>)
      returns (addr: nat, ghost maps: set<nat>, ghost loose: set<nat>)
      requires Sound(Value()) && i < |inodes| && o < MAXFILE * BSIZE && o % BSIZE + |piece| <= BSIZE
      requires Sound(fs) && off + |s| == o && Written(fs, Value(), i, off, s)
      modifies this`used, this`data, this`inodes, this`logged
      ensures Sound(Value()) && i < |inodes| && TableOf(old(Value()), i) <= TableOf(Value(), i)
      ensures old(logged) <= logged
      ensures Tracked(old(Value()), Value(), i, logged + loose) && Placed(old(Value()), old(logged), logged)
      ensures loose == if whole || addr == 0 || piece == [] then {} else {addr}
      ensures !whole ==> Torn(old(Value()), Value(), i, o, piece, old(logged), logged)
      ensures addr != 0 ==> addr == Ptr(Value(), i, SlotOf(o / BSIZE))
      ensures addr != 0 && Ptr(old(Value()), i, SlotOf(o / BSIZE)) == 0 ==> addr in logged
      ensures Written(fs, Value(), i, off, if addr == 0 then s else s + piece)
      ensures addr == 0 ==> forall c :: 0 <= c < |used| ==> used[c]
      ensures logged <= old(logged) + maps + (if addr == 0 then {} else {addr}) + TableOf(Value(), i)
      ensures
        var created := addr != 0 && Ptr(old(Value()), i, SlotOf(o / BSIZE)) == 0;
        |maps| <= Count(created) + Count(GotTable(old(Value()), Value(), i))
    {
      hide Sound, Written, KeepsBytes, Tracked, Placed;
      ghost var before, start := Value(), logged;
      addr, maps := Bmap(i, o / BSIZE);
      ghost var mid, was := Value(), logged;
      loose := {};
      assert logged + loose == logged;
      if addr == 0 {
        WrittenKept(fs, before, mid, i, off, s);
        return;
      }
      WrittenFurther(fs, before, mid, i, off, s, piece);
      PatchedSound(mid, i, SlotOf(o / BSIZE), o % BSIZE, piece);
      var b: seq<Byte> := data[addr];
      data := data[addr := b[..o % BSIZE] + piece + b[o % BSIZE + |piece|..]];
      if whole {
        logged := logged + {addr};
      } else if piece != [] {
        loose := {addr};
      }
      PatchedTracked(before, mid, i, was, addr, o % BSIZE, piece, logged + loose);
      PlacedPtr(mid, was, i, SlotOf(o / BSIZE));
      PlacedTwice(before, mid, i, was, start, was, logged);
      assert Value() == Patched(mid, addr, o % BSIZE, piece);
      assert TableOf(Value(), i) == TableOf(mid, i);
    }

    /**
     Since fs the bytes s went into the cache; `start` was logged before, `now` is logged, and
     `loose` changed besides.
     */
    ghost predicate Copied(fs: Fs, fs': Fs, i: nat, off: nat, s: seq<Byte>, start: set<nat>, now: set<nat>,
                           loose: set<nat>, tally: Tally)
      requires Sound(fs) && i < |fs.inodes|
      ensures Copied(fs, fs', i, off, s, start, now, loose, tally) ==> Sound(fs') && i < |fs'.inodes| && start <= now
      ensures Copied(fs, fs', i, off, s, start, now, loose, tally) ==> Written(fs, fs', i, off, s)
    {
      && Sound(fs') && i < |fs'.inodes| && Written(fs, fs', i, off, s)
      && Logs(fs, fs', i, start, now, tally) && start <= now && Tracked(fs, fs', i, now + loose)
      && Placed(fs, start, now)
    }

    lemma NothingCopied(fs: Fs, i: nat, off: nat, start: set<nat>)
      requires Sound(fs) && i < |fs.inodes|
      ensures Copied(fs, fs, i, off, [], start, start, {}, Tally({}, {}, 0, 0))
    {
      NothingWritten(fs, i, off);
    }

    /** One more piece, of which all, a part or nothing reached the cache. */
    lemma CopiedNext(fs: Fs, fs1: Fs, fs2: Fs, i: nat, off: nat, s: seq<Byte>, s': seq<Byte>, start: set<nat>,
                     was: set<nat>, now: set<nat>, loose: set<nat>, t: Tally, addr: nat, maps: set<nat>, created: bool)
      requires Sound(fs) && i < |fs.inodes| && Copied(fs, fs1, i, off, s, start, was, {}, t)
      requires Sound(fs2) && i < |fs2.inodes| && Written(fs, fs2, i, off, s') && was <= now
      requires Tracked(fs1, fs2, i, now + loose) && Placed(fs1, was, now) && TableOf(fs1, i) <= TableOf(fs2, i)
      requires now <= was + maps + (if addr == 0 then {} else {addr}) + TableOf(fs2, i)
      requires |maps| <= Count(addr != 0 && created) + Count(GotTable(fs1, fs2, i))
      ensures Copied(fs, fs2, i, off, s', start, now, loose, t.Next(addr, maps, created))
    {
      hide Sound, Written, Logs, Tracked, Placed, TableOf, GotTable, Tally.Next;
      PlacedTwice(fs, fs1, i, was + {}, start, was, now);
      LogsNext(fs, fs1, fs2, i, start, was, now, t, addr, maps, created);
      TrackedTwice(fs, fs1, fs2, i, was + {}, now + loose);
    }

    lemma TornPiece(fs: Fs, fs1: Fs, fs2: Fs, i: nat, off: nat, s: seq<Byte>, start: set<nat>, was: set<nat>,
                    now: set<nat>, t: Tally, o: nat, piece: seq<Byte>, loose: set<nat>)
      requires Sound(fs) && i < |fs.inodes| && Copied(fs, fs1, i, off, s, start, was, {}, t)
      requires Sound(fs2) && i < |fs2.inodes| && Tracked(fs1, fs2, i, now + loose)
      requires o < MAXFILE * BSIZE && o % BSIZE + |piece| <= BSIZE && Torn(fs1, fs2, i, o, piece, was, now)
      requires Ptr(fs2, i, SlotOf(o / BSIZE)) != 0 && loose == {Ptr(fs2, i, SlotOf(o / BSIZE))}
      requires Ptr(fs1, i, SlotOf(o / BSIZE)) == 0 ==> Ptr(fs2, i, SlotOf(o / BSIZE)) in now
      ensures TornAt(fs, fs2, i, o, piece, now, loose)
    {
      hide Sound, Written, Logs, Torn, TornAt, Placed;
      assert was + {} == was;
      TornSince(fs, fs1, fs2, i, o, piece, was, now);
    }

    /** The bytes tot .. tot + p - 1 of src go into their block; it is loose if they were not the whole piece. */
    method PutPiece(i: nat, off: nat, src: seq<Byte>, tot: nat, p: nat, whole: bool,
                    ghost fs: Fs, ghost start: set<nat>, ghost tally: Tally)
      returns (addr: nat, ghost loose: set<nat>, ghost maps: set<nat>, ghost created: bool)
      requires Sound(fs) && i < |fs.inodes| && off <= fs.inodes[i].size && tot + p <= |src|
      requires off + tot < MAXFILE * BSIZE && (off + tot) % BSIZE + p <= BSIZE
      requires Copied(fs, Value(), i, off, src[..tot], start, logged, {}, tally)
      modifies this`used, this`data, this`inodes, this`logged
      ensures var n := if addr == 0 then tot else tot + p;
              Copied(fs, Value(), i, off, src[..n], start, logged, loose, tally.Next(addr, maps, created))
      ensures created ==> off % BSIZE == 0 || tot > 0
      ensures addr == 0 ==> forall c :: 0 <= c < |used| ==> used[c]
      ensures if addr == 0 || whole || p == 0 then loose == {}
              else TornAt(fs, Value(), i, off + tot, src[tot..tot + p], logged, loose)
    {
      hide Sound, Copied, Written, TableOf, GotTable, Ptr, Shaped, Tally.Next, Tracked, Torn, Placed, TornAt;
      ghost var before, was, o := Value(), logged, off + tot;
      FirstBlockExists(fs, before, i, off, src[..tot]);
      created := Ptr(before, i, SlotOf(o / BSIZE)) == 0;
      addr, maps, loose := WritePiece(i, off + tot, src[tot..tot + p], whole, fs, off, src[..tot]);
      SliceJoin(src, 0, tot, tot + p);
      ghost var n := if addr == 0 then tot else tot + p;
      CopiedNext(fs, before, Value(), i, off, src[..tot], src[..n], start, was, logged, loose, tally,
                 addr, maps, created);
      if addr != 0 && !whole && p > 0 {
        TornPiece(fs, before, Value(), i, off, src[..tot], start, was, logged, tally, o, src[tot..tot + p], loose);
      }
    }

    /**
     One round of a write that has come as far as tot. The result 0 means that the disk is full, or
     that only `torn` bytes of the piece could be read; those are in the cached block all the same,
     which is then loose unless it was logged before.
     */
    method Round(i: nat, off: nat, src: seq<Byte>, readable: nat, tot: nat,
                 ghost fs: Fs, ghost start: set<nat>, ghost tally: Tally)
      returns (m: nat, torn: nat, ghost loose: set<nat>, ghost tally': Tally, ghost reach: nat)
      requires Sound(fs) && i < |fs.inodes| && off <= fs.inodes[i].size && off + |src| <= MAXFILE * BSIZE
      requires tot < |src| && tot <= readable && Copied(fs, Value(), i, off, src[..tot], start, logged, {}, tally)
      requires RoundsSoFar(off, tot, |src|, tally)
      modifies this`used, this`data, this`inodes, this`logged
      ensures tot + m + torn <= |src|
      ensures Copied(fs, Value(), i, off, src[..tot + m + torn], start, logged, loose, tally')
      ensures reach <= |src| && RoundsSoFar(off, reach, |src|, tally')
      ensures m > 0 ==> tot + m <= readable && torn == 0 && reach == tot + m
      ensures m == 0 && readable >= |src| ==> torn == 0
      ensures m == 0 ==> (forall c :: 0 <= c < |used| ==> used[c]) || (readable < |src| && tot + torn == readable)
      ensures if torn == 0 then loose == {} else TornAt(fs, Value(), i, off + tot, src[tot..tot + torn], logged, loose)
    {
      hide Sound, Copied, RoundsSoFar, Shaped, Tally.Next, TornAt;
      var o := off + tot;
      m := if |src| - tot < BSIZE - o % BSIZE then |src| - tot else BSIZE - o % BSIZE;
      var whole := tot + m <= readable;
      var p := if whole then m else readable - tot;
      var addr;
      ghost var maps, created;
      addr, loose, maps, created := PutPiece(i, off, src, tot, p, whole, fs, start, tally);
      tally' := tally.Next(addr, maps, created);
      torn, reach := 0, tot;
      if addr == 0 {
        RoundsStopped(off, tot, |src|, tally, created, maps);
        m := 0;
      } else {
        NextRound(off, tot, |src|, tally, m, created, addr, maps);
        reach := tot + m;
        if !whole {
          m, torn := 0, p;
        }
      }
    }

    /** The loop of a write; `tally` bounds what it hands to log_write, `put` is how many bytes reached the cache. */
    method CopyIn(i: nat, off: nat, src: seq<Byte>, readable: nat)
      returns (tot: nat, ghost put: nat, ghost loose: set<nat>, ghost tally: Tally)
      requires Sound(Value()) && i < |inodes| && off <= inodes[i].size && off + |src| <= MAXFILE * BSIZE
      modifies this`used, this`data, this`inodes, this`logged
      ensures tot <= put <= |src| && tot <= readable && (readable >= |src| ==> put == tot)
      ensures Copied(old(Value()), Value(), i, off, src[..put], old(logged), logged, loose, tally)
      ensures tot < |src| ==> (forall c :: 0 <= c < |used| ==> used[c]) || (readable < |src| && put == readable)
      ensures if put == tot then loose == {}
              else TornAt(old(Value()), Value(), i, off + tot, src[tot..put], logged, loose)
      ensures |src| <= 3 * BSIZE ==> tally.rounds + tally.added <= 7
    {
      hide Sound, Copied, RoundsSoFar, Shaped, TornAt;
      ghost var fs := Value();
      NothingCopied(fs, i, off, logged);
      tot, put, loose, tally := 0, 0, {}, Tally({}, {}, 0, 0);
      NoRounds(off, |src|);
      assert src[..tot] == [];
      ghost var reach := 0;
      while tot < |src|
        invariant 0 <= tot == put == reach <= |src| && tot <= readable && loose == {}
        invariant Copied(fs, Value(), i, off, src[..tot], old(logged), logged, loose, tally)
        invariant RoundsSoFar(off, reach, |src|, tally)
        decreases |src| - tot
      {
        var m, torn;
        m, torn, loose, tally, reach := Round(i, off, src, readable, tot, fs, old(logged), tally);
        put := tot + m + torn;
        if m == 0 {
          break;
        }
        tot := tot + m;
      }
      RoundsBound(off, reach, |src|, tally);
    }

    /** The end of a write: the size grows if needed, and the inode goes back to the disk. */
    method Iupdate(i: nat, off: nat, tot: nat, ghost fs: Fs, ghost s: seq<Byte>, ghost start: set<nat>,
                   ghost loose: set<nat>,
                   ghost tally: Tally)
      returns (ghost wrote: set<nat>)
      requires Sound(fs) && i < |fs.inodes| && off <= fs.inodes[i].size && off + |s| <= MAXFILE * BSIZE && tot <= |s|
      requires Copied(fs, Value(), i, off, s, start, logged, loose, tally)
      modifies this`inodes, this`logged
      ensures Sound(Value()) && |inodes| == |fs.inodes|
      ensures Content(Value(), i) == Shown(Content(fs, i), off, s, tot)
      ensures forall j :: 0 <= j < |inodes| && j != i ==> Content(Value(), j) == Content(fs, j)
      ensures start <= logged <= start + wrote && InodeBlock(i) in logged && Tracked(fs, Value(), i, logged + loose)
      ensures Placed(fs, start, logged) && old(logged) <= logged
      ensures forall k :: 0 <= k < SLOTS ==> Ptr(Value(), i, k) == Ptr(old(Value()), i, k)
      ensures data == old(data)
      ensures tally.rounds + tally.added <= 7 ==> |wrote| <= MAXOPBLOCKS
    {
      hide Shown, Logs, Tracked, Sound, Content, TableOf, Written, Shaped, Placed;
      ghost var fs', blocks := Value(), logged;
      SameSizes(fs, fs', i, off, s);
      var size := if off + tot > inodes[i].size then off + tot else inodes[i].size;
      WrittenContent(fs, fs', i, off, s, tot, size);
      wrote := tally.blocks + tally.maps + TableOf(fs', i) + {InodeBlock(i)};
      LogsBound(fs, fs', i, start, blocks, tally, InodeBlock(i));
      inodes := inodes[i := inodes[i].(size := size)];
      logged := logged + {InodeBlock(i)};
      ResizedTracked(fs, fs', i, blocks + loose, size, logged + loose);
      PlacedInode(fs, start, blocks, i);
      SamePointers(fs', i, size);
    }

    /**
     Writes src at off, as far as the disk has room and the source can be read, and extends the file
     if needed. `put` bytes reached the cache; `wrote` bounds the blocks handed to log_write.
     */
    method Writei(i: nat, off: nat, src: seq<Byte>, readable: nat)
      returns (tot: int, ghost put: nat, ghost loose: set<nat>, ghost wrote: set<nat>)
      requires Sound(Value()) && i < |inodes| && off < UINT_MAX && |src| < UINT_MAX
      modifies this`used, this`data, this`inodes, this`logged
      ensures tot == -1 <==> off > old(inodes)[i].size || off + |src| >= UINT_MAX || off + |src| > MAXFILE * BSIZE
      ensures tot == -1 ==> Value() == old(Value()) && logged == old(logged) && put == 0
      ensures Sound(Value()) && |inodes| == |old(inodes)|
      ensures tot != -1 ==> 0 <= tot <= put <= |src| && tot <= readable && (readable >= |src| ==> put == tot)
      ensures tot != -1 ==> Content(Value(), i) == Shown(Content(old(Value()), i), off, src[..put], tot)
      ensures tot != -1 ==> forall j :: 0 <= j < |inodes| && j != i ==> Content(Value(), j) == Content(old(Value()), j)
      // it stops short on a full disk, or where the source cannot be read
      ensures 0 <= tot < |src| ==> (forall c :: 0 <= c < |used| ==> used[c]) || (readable < |src| && put == readable)
      ensures old(logged) <= logged <= old(logged) + wrote
      ensures Tracked(old(Value()), Value(), i, logged + loose) && (tot != -1 ==> InodeBlock(i) in logged)
      ensures Placed(old(Value()), old(logged), logged) && |loose| <= 1
      // the log carries every change exactly if no piece was torn, or the torn one is harmless
      ensures if tot == -1 || put == tot then loose == {}
              else TornAt(old(Value()), Value(), i, off + tot, src[tot..put], logged, loose)
      ensures Areas(old(Value())) ==> (Tracked(old(Value()), Value(), i, logged) <==>
                tot == -1 || put == tot || Harmless(old(Value()), Value(), i, off + tot, src[tot..put], logged))
      ensures |src| <= 3 * BSIZE ==> |wrote| <= MAXOPBLOCKS
    {
      hide Shown, Copied, Tracked, Sound, Content, Shaped, TornAt, Harmless, Placed, Areas;
      StillTracked(Value(), i, logged + {});
      StillTracked(Value(), i, logged);
      StillPlaced(Value(), logged);
      if off > inodes[i].size || (off + |src|) % UINT_MAX < off {
        return -1, 0, {}, {};
      }
      if off + |src| > MAXFILE * BSIZE {
        return -1, 0, {}, {};
      }
      ghost var fs := Value();
      ghost var tally;
      tot, put, loose, tally := CopyIn(i, off, src, readable);
      ghost var fs', now := Value(), logged;
      wrote := Iupdate(i, off, tot, fs, src[..put], old(logged), loose, tally);
      if put > tot {
        TornKept(fs, fs', Value(), i, off + tot, src[tot..put], now, logged, loose);
        OneTorn(fs, Value(), i, off + tot, src[tot..put], logged, loose);
        if Areas(fs) {
          TornUnlogged(fs, Value(), i, off + tot, src[tot..put], logged, loose);
        }
      } else {
        assert logged + {} == logged;
      }
    }

    /** One transaction of a write system call, after k bytes: exactly what it logged goes into the history. */
    method WriteChunk(i: nat, off: nat, src: seq<Byte>, readable: nat, k: nat, n1: nat, ghost fs: Fs)
      returns (r: int, ghost put: nat, ghost t: Transaction)
      requires Sound(fs) && Sound(Value()) && i < |fs.inodes| && off + |src| < UINT_MAX && k + n1 <= |src|
      requires n1 <= CHUNK
      requires k <= readable && FileWritten(fs, Value(), i, off, src[..k], k)
      modifies this
      ensures Sound(Value()) && |inodes| == |old(inodes)| && -1 <= r <= n1
      ensures r == -1 <==> off + k > old(inodes)[i].size || off + k + n1 > MAXFILE * BSIZE
      ensures 0 <= r < n1 ==> (forall c :: 0 <= c < |used| ==> used[c]) || (readable < |src| && k + put == readable)
      ensures
        var n := if r > 0 then r else 0;
        n <= put <= n1 && k + n <= readable && (readable >= |src| ==> put == n) && (put == n ==> t.loose == {})
        && FileWritten(fs, Value(), i, off, src[..k + put], k + n)
      ensures history == old(history) + [t] && t.blocks == logged && t.before == old(Value()) && t.after == Value()
      ensures |t.loose| <= 1 && Fits(t)
    {
      hide Sound, Content, Spliced, Shaped, Tracked, Shown, Harmless, TornAt, Areas, InAreas, FileWritten;
      logged := {};
      ghost var before := Value();
      NoneInAreas(before);
      ghost var wrote, loose;
      r, put, loose, wrote := Writei(i, off + k, src[k..k + n1], readable - k);
      SubsetCard(logged, wrote);
      t := Transaction(logged, loose, before, Value());
      assert Tracked(before, Value(), i, t.blocks + t.loose);
      history := history + [t];
      if r >= 0 {
        SliceTake(src, k, n1, put);
        ChunkWritten(fs, before, Value(), i, off, src, k, put, r);
      }
    }

    /** A small transaction of inode, bitmap and data blocks, which carries all that is not loose. */
    ghost predicate Fits(t: Transaction) {
      |t.blocks| <= MAXOPBLOCKS && Covers(t) && (Areas(t.before) ==> InAreas(t.before, t.blocks))
    }

    /**
     Truncation as a transaction of its own, as in open with O_TRUNC. It logs the inode's block and at
     most every bitmap block; these fit the reservation on a disk of up to MAXOPBLOCKS - 1 bitmap blocks.
     */
    method TruncateFile(i: nat) returns (panics: bool, ghost t: Transaction)
      requires Sound(Value()) && i < |inodes|
      modifies this
      ensures !panics && Sound(Value()) && history == old(history) + [t]
      ensures t.blocks == logged && t.loose == {} && t.before == old(Value()) && t.after == Value()
      ensures Truncated(t.before, i, t.after) && Covers(t) && |t.blocks| <= 1 + (|used| + BPB - 1) / BPB
      ensures |used| <= (MAXOPBLOCKS - 1) * BPB ==> Fits(t)
    {
      hide Sound, Content, Areas, InAreas, Tracked, Covers, Bitmap;
      logged := {};
      ghost var before := Value();
      panics := Itrunc(i);
      assert {} + Bitmap(|used|) == Bitmap(|used|);
      t := Transaction(logged, {}, before, Value());
      history := history + [t];
      Truncation(t, i);
    }

    /** What a truncation logs covers it, and is small and in place. */
    lemma Truncation(t: Transaction, i: nat)
      requires Tracked(t.before, t.after, i, t.blocks) && i < |t.before.inodes| && InodeBlock(i) in t.blocks
      requires t.blocks <= Bitmap(|t.before.used|) + {InodeBlock(i)} && t.loose == {}
      ensures Covers(t) && |t.blocks| <= 1 + (|t.before.used| + BPB - 1) / BPB
      ensures Areas(t.before) ==> InAreas(t.before, t.blocks)
    {
      hide Areas, InAreas;
      assert t.blocks + t.loose == t.blocks;
      SubsetCard(t.blocks, Bitmap(|t.before.used|) + {InodeBlock(i)});
      BitmapInAreas(t.before, i, t.blocks);
    }

    lemma BitmapInAreas(fs: Fs, i: nat, blocks: set<nat>)
      requires i < |fs.inodes| && blocks <= Bitmap(|fs.used|) + {InodeBlock(i)}
      ensures Areas(fs) ==> InAreas(fs, blocks)
    {
      if Areas(fs) {
        forall b | b in Bitmap(|fs.used|) ensures inodestart <= b < |fs.data| {
          FirstMark(b, |fs.used|);
        }
      }
    }

    /** Every bitmap block has the mark of some block. */
    lemma FirstMark(b: nat, n: nat)
      requires bmapstart <= b < bmapstart + (n + BPB - 1) / BPB
      ensures (b - bmapstart) * BPB < n && BitmapBlock((b - bmapstart) * BPB) == b
    {
      var k := b - bmapstart;
      assert k * BPB / BPB == k;
    }

    lemma NoneInAreas(fs: Fs)
      ensures InAreas(fs, {})
    {
    }

    /**
     What a write has done so far: each transaction is small and carries all it changed, but for what
     the last one may have left loose, and each one before the last ends a whole number of chunks.
     */
    ghost predicate Chunked(fs: Fs, i: nat, off: nat, src: seq<Byte>, done: nat, put: nat, txns: seq<Transaction>)
      requires Sound(fs) && done <= put <= |src|
    {
      && (forall t :: 0 <= t < |txns| ==> Fits(txns[t]))
      && (forall t :: 0 <= t < |txns| ==> |txns[t].loose| <= Count(put > done && t + 1 == |txns|))
      && (forall t :: 0 <= t < |txns| ==> Sound(txns[t].after) && AfterTxn(fs, i, off, src, done, put, txns, t))
      && Chain(fs, txns) && done <= |txns| * CHUNK
    }

    /** The file after transaction t of the call. */
    ghost predicate AfterTxn(fs: Fs, i: nat, off: nat, src: seq<Byte>, done: nat, put: nat, txns: seq<Transaction>,
                             t: nat)
      requires Sound(fs) && done <= put <= |src| && t < |txns| && Sound(txns[t].after)
    {
      var n := Least((t + 1) * CHUNK, done);
      FileWritten(fs, txns[t].after, i, off, src[..if t + 1 == |txns| then put else n], n)
    }

    /**
     A write system call on a file, in transactions of at most three blocks of data. `off` is the
     file offset before, off' after the call, `done` the number of bytes written and `txns` the
     transactions; `readable` is how many bytes of the source can be read.
     */
    method FileWrite(i: nat, off: nat, src: seq<Byte>, readable: nat)
      returns (ret: int, off': nat, ghost done: nat, ghost put: nat, ghost txns: seq<Transaction>)
      requires Sound(Value()) && i < |inodes| && off + |src| < UINT_MAX
      modifies this
      ensures Sound(Value())
      ensures done <= put <= |src| && off' == off + done && ret == (if done == |src| then |src| else -1)
      ensures FileWritten(old(Value()), Value(), i, off, src[..put], done)
      ensures history == old(history) + txns && Chunked(old(Value()), i, off, src, done, put, txns)
      ensures Value() == if txns == [] then old(Value()) else txns[|txns| - 1].after
      // bytes that do not count reach the file only if the source cannot be read to the end
      ensures readable >= |src| ==> put == done
      // it stops short past the end of the file, at the largest file size, on a full disk or at an unreadable byte
      ensures |src| > 0 && (off > old(inodes)[i].size || off + |src| > MAXFILE * BSIZE || readable < |src|) ==>
        done < |src|
      ensures done < |src| ==>
                off > old(inodes)[i].size || off + |src| > MAXFILE * BSIZE || readable < |src|
                || forall c :: 0 <= c < |used| ==> used[c]
    {
      hide Sound, FileWritten, Shaped, Chunked, Fits, Content;
      var n, k := |src|, 0;
      off', done, put, txns := off, 0, 0, [];
      ghost var fs, was := Value(), history;
      assert src[..0] == [];
      NothingYet(fs, i, off);
      NoChunks(fs, i, off, src);
      while k < n
        invariant 0 <= k <= n && k <= readable && off' == off + k && done == put == k && i < |inodes| && i < |fs.inodes|
        invariant Sound(Value()) && FileWritten(fs, Value(), i, off, src[..k], k)
        invariant history == was + txns && Chunked(fs, i, off, src, k, k, txns)
        invariant Value() == if txns == [] then fs else txns[|txns| - 1].after
        invariant k > 0 ==> off <= fs.inodes[i].size && off + k <= MAXFILE * BSIZE
        invariant k < n ==> k == |txns| * CHUNK
        decreases n - k
      {
        var n1 := if n - k > CHUNK then CHUNK else n - k;
        ghost var before := Value();
        ghost var p, t;
        var r;
        r, p, t := WriteChunk(i, off, src, readable, k, n1, fs);
        SizeReaches(fs, before, i, off, src[..k], k);
        if r > 0 {
          off' := off' + r;
          done := done + r;
        }
        put := k + p;
        MoreChunks(fs, i, off, src, k, done, put, txns, t);
        txns := txns + [t];
        if r != n1 {
          break;
        }
        k := k + r;
      }
      ret := if k == n then n else -1;
    }

    lemma NoChunks(fs: Fs, i: nat, off: nat, src: seq<Byte>)
      requires Sound(fs)
      ensures Chunked(fs, i, off, src, 0, 0, [])
    {
    }

    lemma MoreChunks(fs: Fs, i: nat, off: nat, src: seq<Byte>, k: nat, done: nat, put: nat, txns: seq<Transaction>,
                     t: Transaction)
      requires Sound(fs) && k <= done <= put <= |src| && done <= k + CHUNK && k == |txns| * CHUNK
      requires Chunked(fs, i, off, src, k, k, txns)
      requires |t.loose| <= Count(put > done) && Fits(t)
      requires t.before == (if txns == [] then fs else txns[|txns| - 1].after) && Sound(t.after)
      requires FileWritten(fs, t.after, i, off, src[..put], done)
      ensures Chunked(fs, i, off, src, done, put, txns + [t])
    {
      hide Sound, FileWritten, Fits, AfterTxn, Least;
      var txns' := txns + [t];
      forall j | 0 <= j < |txns'|
        ensures Sound(txns'[j].after) && AfterTxn(fs, i, off, src, done, put, txns', j)
      {
        if j < |txns| {
          EarlierTxn(fs, i, off, src, k, done, put, txns, t, j);
        } else {
          LastTxn(fs, i, off, src, done, put, txns, t);
        }
      }
    }

    lemma EarlierTxn(fs: Fs, i: nat, off: nat, src: seq<Byte>, k: nat, done: nat, put: nat, txns: seq<Transaction>,
                     t: Transaction, j: nat)
      requires Sound(fs) && k <= done <= put <= |src| && k == |txns| * CHUNK && j < |txns|
      requires Sound(txns[j].after) && AfterTxn(fs, i, off, src, k, k, txns, j)
      ensures AfterTxn(fs, i, off, src, done, put, txns + [t], j)
    {
      hide Sound, FileWritten;
      assert (j + 1) * CHUNK <= k;
      assert Least((j + 1) * CHUNK, k) == Least((j + 1) * CHUNK, done) == (j + 1) * CHUNK;
    }

    lemma LastTxn(fs: Fs, i: nat, off: nat, src: seq<Byte>, done: nat, put: nat, txns: seq<Transaction>, t: Transaction)
      requires Sound(fs) && Sound(t.after) && done <= put <= |src| && done <= (|txns| + 1) * CHUNK
      requires FileWritten(fs, t.after, i, off, src[..put], done)
      ensures AfterTxn(fs, i, off, src, done, put, txns + [t], |txns|)
    {
      hide Sound, FileWritten;
    }
  }

  const CHUNK := (MAXOPBLOCKS - 1 - 1 - 2) / 2 * BSIZE

  function Least(a: nat, b: nat): nat {
    if a < b then a else b
  }

  /** Each transaction starts where the one before it ended. */
  ghost predicate Chain(fs: Fs, txns: seq<Transaction>) {
    && (txns != [] ==> txns[0].before == fs)
    && forall j, k :: 0 <= j && k == j + 1 < |txns| ==> txns[k].before == txns[j].after
  }

  /** How many bytes a read of n bytes at off finds in a file of that size. */
  function Wanted(size: nat, off: nat, n: nat): nat {
    if off > size || off + n >= UINT_MAX then 0 else if off + n > size then size - off else n
  }

  /** After a write of s at off, the file reaches as far as what counts of s. */
  lemma SizeReaches(fs: Fs, fs': Fs, i: nat, off: nat, s: seq<Byte>, n: nat)
    requires Sound(fs) && Sound(fs') && n <= |s| && FileWritten(fs, fs', i, off, s, n)
    ensures off <= fs.inodes[i].size ==> off + n <= fs'.inodes[i].size
    ensures off > fs.inodes[i].size ==> fs'.inodes[i].size == fs.inodes[i].size
  {
  }

  /**
   Between fs and fs' the bytes s went into file i at off, and n of them count towards its size;
   beyond the end of the file nothing can be written.
   */
  ghost predicate FileWritten(fs: Fs, fs': Fs, i: nat, off: nat, s: seq<Byte>, n: nat)
    requires Sound(fs) && Sound(fs') && n <= |s|
    ensures FileWritten(fs, fs', i, off, s, n) ==> |fs'.inodes| == |fs.inodes| && i < |fs.inodes|
  {
    && |fs'.inodes| == |fs.inodes| && i < |fs.inodes|
    && (off > fs.inodes[i].size ==> s == [] && fs' == fs)
    && (off <= fs.inodes[i].size ==> Content(fs', i) == Shown(Content(fs, i), off, s, n))
    && (forall j :: 0 <= j < |fs.inodes| && j != i ==> Content(fs', j) == Content(fs, j))
  }

  lemma NothingYet(fs: Fs, i: nat, off: nat)
    requires Sound(fs) && i < |fs.inodes|
    ensures FileWritten(fs, fs, i, off, [], 0)
  {
    if off <= fs.inodes[i].size {
      ShownAll(Content(fs, i), off, []);
      assert Spliced(Content(fs, i), off, []) == Content(fs, i);
    }
  }

  lemma ChunkWritten(fs: Fs, fs1: Fs, fs2: Fs, i: nat, off: nat, src: seq<Byte>, k: nat, put: nat, r: nat)
    requires Sound(fs) && Sound(fs1) && Sound(fs2) && i < |fs.inodes| && r <= put && k + put <= |src|
    requires FileWritten(fs, fs1, i, off, src[..k], k) && |fs2.inodes| == |fs1.inodes|
    requires off + k <= fs1.inodes[i].size && Content(fs2, i) == Shown(Content(fs1, i), off + k, src[k..k + put], r)
    requires forall j :: 0 <= j < |fs.inodes| && j != i ==> Content(fs2, j) == Content(fs1, j)
    ensures FileWritten(fs, fs2, i, off, src[..k + put], k + r)
  {
    hide Sound, Content, Spliced, Shown;
    assert off <= fs.inodes[i].size;
    ShownAll(Content(fs, i), off, src[..k]);
    ShownTwice(Content(fs, i), off, src[..k], src[k..k + put], r);
    assert src[..k] + src[k..k + put] == src[..k + put];
  }

  lemma {:induction false} SubsetCard(a: set<nat>, b: set<nat>)
    requires a <= b
    ensures |a| <= |b|
  {
    if a != {} {
      var x :| x in a;
      SubsetCard(a - {x}, b - {x});
    }
  }

  lemma CardBound(a: set<nat>, b: set<nat>)
    ensures |a + b| <= |a| + |b|
  {
    assert a + b == a + (b - a);
  }

  /** What a write has logged: data blocks, bitmap blocks, and how many rounds added a block. */
  datatype Tally = Tally(blocks: set<nat>, maps: set<nat>, rounds: nat, added: nat) {

    function Next(addr: nat, newMaps: set<nat>, created: bool): Tally {
      if addr == 0 then this.(maps := maps + newMaps)
      else Tally(blocks + {addr}, maps + newMaps, rounds + 1, added + Count(created))
    }
  }

  ghost predicate Logs(fs: Fs, fs': Fs, i: nat, before: set<nat>, now: set<nat>, t: Tally)
    requires Shaped(fs) && Shaped(fs') && i < |fs.inodes| && i < |fs'.inodes|
  {
    && TableOf(fs, i) <= TableOf(fs', i)
    && now <= before + t.blocks + t.maps + TableOf(fs', i)
    && |t.blocks| <= t.rounds
    && |t.maps| <= t.added + Count(GotTable(fs, fs', i))
  }

  lemma LogsNext(fs: Fs, fs1: Fs, fs2: Fs, i: nat, before: set<nat>, was: set<nat>, now: set<nat>, t: Tally,
                 addr: nat, maps: set<nat>, created: bool)
    requires Shaped(fs) && Shaped(fs1) && Shaped(fs2) && i < |fs.inodes| && i < |fs1.inodes| && i < |fs2.inodes|
    requires Logs(fs, fs1, i, before, was, t) && TableOf(fs1, i) <= TableOf(fs2, i)
    requires now <= was + maps + (if addr == 0 then {} else {addr}) + TableOf(fs2, i)
    requires |maps| <= Count(addr != 0 && created) + Count(GotTable(fs1, fs2, i))
    ensures Logs(fs, fs2, i, before, now, t.Next(addr, maps, created))
  {
    CardBound(t.maps, maps);
    CardBound(t.blocks, {addr});
  }

  /** Where a write of n bytes at off stands after some rounds. */
  ghost predicate RoundsSoFar(off: nat, tot: nat, n: nat, t: Tally) {
    && t.added <= t.rounds && (off % BSIZE != 0 && t.rounds > 0 ==> t.added < t.rounds)
    && (t.rounds == 0 ==> tot == 0)
    && (t.rounds > 0 && tot < n ==> off + tot == (off / BSIZE + t.rounds) * BSIZE)
    && (t.rounds > 0 ==> off + tot > (off / BSIZE + t.rounds - 1) * BSIZE)
    && (n <= 3 * BSIZE && tot <= n ==> t.rounds + t.added <= 7)
  }

  lemma OneTorn(fs: Fs, fs': Fs, i: nat, o: nat, piece: seq<Byte>, now: set<nat>, loose: set<nat>)
    requires Shaped(fs') && i < |fs'.inodes| && TornAt(fs, fs', i, o, piece, now, loose)
    ensures |loose| == 1
  {
  }

  lemma TornKept(fs: Fs, fs1: Fs, fs2: Fs, i: nat, o: nat, piece: seq<Byte>, was: set<nat>, now: set<nat>,
                 loose: set<nat>)
    requires Shaped(fs1) && Shaped(fs2) && i < |fs1.inodes| && i < |fs2.inodes|
    requires TornAt(fs, fs1, i, o, piece, was, loose)
    requires fs2.data == fs1.data && was <= now && forall k :: 0 <= k < SLOTS ==> Ptr(fs2, i, k) == Ptr(fs1, i, k)
    ensures TornAt(fs, fs2, i, o, piece, now, loose)
  {
  }

  lemma SamePointers(fs: Fs, i: nat, size: nat)
    requires Shaped(fs) && i < |fs.inodes| && Shaped(Resized(fs, i, size))
    ensures forall k :: 0 <= k < SLOTS ==> Ptr(Resized(fs, i, size), i, k) == Ptr(fs, i, k)
  {
  }

  lemma SameSizes(fs: Fs, fs': Fs, i: nat, off: nat, s: seq<Byte>)
    requires Sound(fs) && Sound(fs') && Written(fs, fs', i, off, s)
    ensures |fs'.inodes| == |fs.inodes| && i < |fs.inodes| && fs'.inodes[i].size == fs.inodes[i].size
  {
  }

  lemma NoRounds(off: nat, n: nat)
    ensures RoundsSoFar(off, 0, n, Tally({}, {}, 0, 0))
  {
  }

  lemma RoundsBound(off: nat, tot: nat, n: nat, t: Tally)
    requires RoundsSoFar(off, tot, n, t) && tot <= n
    ensures n <= 3 * BSIZE ==> t.rounds + t.added <= 7
  {
  }

  /** The blocks of the tally, the indirect block and the inode's block fit into the budget of an operation. */
  lemma LogsBound(fs: Fs, fs': Fs, i: nat, before: set<nat>, now: set<nat>, t: Tally, b: nat)
    requires Shaped(fs) && Shaped(fs') && i < |fs.inodes| && i < |fs'.inodes| && Logs(fs, fs', i, before, now, t)
    ensures now + {b} <= before + (t.blocks + t.maps + TableOf(fs', i) + {b})
    ensures t.rounds + t.added <= 7 ==> |t.blocks + t.maps + TableOf(fs', i) + {b}| <= MAXOPBLOCKS
  {
    CardBound(t.blocks, t.maps);
    CardBound(t.blocks + t.maps, TableOf(fs', i));
    CardBound(t.blocks + t.maps + TableOf(fs', i), {b});
  }

  lemma RoundsStopped(off: nat, tot: nat, n: nat, t: Tally, created: bool, maps: set<nat>)
    requires RoundsSoFar(off, tot, n, t)
    ensures RoundsSoFar(off, tot, n, t.Next(0, maps, created))
  {
  }

  lemma NextRound(off: nat, tot: nat, n: nat, t: Tally, m: nat, created: bool, addr: nat, maps: set<nat>)
    requires RoundsSoFar(off, tot, n, t) && tot < n && addr != 0
    requires m == if n - tot < BSIZE - (off + tot) % BSIZE then n - tot else BSIZE - (off + tot) % BSIZE
    requires created ==> off % BSIZE == 0 || tot > 0
    ensures RoundsSoFar(off, tot + m, n, t.Next(addr, maps, created))
  {
    var q := off / BSIZE + t.rounds;
    assert off + tot == q * BSIZE + (off + tot) % BSIZE by {
      if t.rounds > 0 {
        Unaligned(q, 0);
      }
    }
    assert t.rounds > 0 ==> (off + tot) % BSIZE == 0;
    assert tot + m < n ==> off + tot + m == (q + 1) * BSIZE;
  }

  lemma Unaligned(q: nat, r: nat)
    requires r < BSIZE
    ensures (q * BSIZE + r) / BSIZE == q && (q * BSIZE + r) % BSIZE == r
  {
  }

  /** The first block of a write that does not start at a block boundary is never a new one. */
  lemma FirstBlockExists(fs: Fs, fs': Fs, i: nat, off: nat, s: seq<Byte>)
    requires Sound(fs) && Sound(fs') && i < |fs.inodes| && Written(fs, fs', i, off, s) && off <= fs.inodes[i].size
    requires off < MAXFILE * BSIZE
    ensures off % BSIZE != 0 ==> Ptr(fs', i, SlotOf(off / BSIZE)) != 0
  {
    if off % BSIZE != 0 {
      var p := off / BSIZE * BSIZE;
      BelowSizeMapped(fs, i, p);
      assert Mapped(fs', i, p);
      assert p / BSIZE == off / BSIZE;
    }
  }

  lemma SliceJoin(c: seq<Byte>, a: nat, b: nat, e: nat)
    requires a <= b <= e <= |c|
    ensures c[a..b] + c[b..e] == c[a..e]
  {
  }

  lemma SliceTake(c: seq<Byte>, a: nat, m: nat, k: nat)
    requires a + m <= |c| && k <= m
    ensures c[a..a + m][..k] == c[a..a + k]
  {
  }

  lemma TakeJoin(c: seq<Byte>, a: nat, b: nat, m: nat, k: nat)
    requires a <= b && b + m <= |c| && k <= m
    ensures c[a..b] + c[b..b + m][..k] == c[a..b + k]
  {
  }

  /** The part of a block that a read copies out. */
  lemma ReadPiece(fs: Fs, i: nat, o: nat, m: nat)
    requires Sound(fs) && i < |fs.inodes| && o + m <= fs.inodes[i].size && 0 < m && o % BSIZE + m <= BSIZE
    ensures
      var addr := Ptr(fs, i, SlotOf(o / BSIZE));
      0 < addr < |fs.data| && fs.data[addr][o % BSIZE..o % BSIZE + m] == Content(fs, i)[o..o + m]
  {
    BelowSizeMapped(fs, i, o);
    var addr := Ptr(fs, i, SlotOf(o / BSIZE));
    var from, to := fs.data[addr][o % BSIZE..o % BSIZE + m], Content(fs, i)[o..o + m];
    forall x | 0 <= x < m ensures from[x] == to[x] {
      BelowSizeMapped(fs, i, o + x);
      assert (o + x) / BSIZE == o / BSIZE;
    }
  }

  /** The bitmap after the blocks in some slots of inode i were freed. */
  ghost predicate FreedSlots(fs: Fs, i: nat, used: seq<bool>, slots: set<nat>)
    requires Shaped(fs) && i < |fs.inodes|
  {
    && |used| == |fs.used|
    && forall b: nat :: b < |used| ==>
         (used[b] <==> fs.used[b] && (b == 0 || forall m: nat | m in slots :: !Owns(fs, i, m, b)))
  }

  lemma EntryOf(fs: Fs, i: nat, j: nat)
    requires Sound(fs) && i < |fs.inodes| && j < NINDIRECT && Ptr(fs, i, NDIRECT) != 0
    ensures Ptr(fs, i, NDIRECT) < |fs.data|
    ensures Ptr(fs, i, NDIRECT + 1 + j) == WordAt(fs.data[Ptr(fs, i, NDIRECT)], j)
  {
  }

  lemma TruncatedFiles(fs: Fs, i: nat, fs': Fs)
    requires Sound(fs) && i < |fs.inodes| && Truncated(fs, i, fs')
    ensures Sound(fs')
    ensures forall j :: 0 <= j < |fs'.inodes| ==> Content(fs', j) == if j == i then [] else Content(fs, j)
  {
    hide Sound, Content;
    TruncatedSound(fs, i, fs');
    forall j | 0 <= j < |fs'.inodes| ensures Content(fs', j) == if j == i then [] else Content(fs, j) {
      TruncatedContent(fs, i, fs', j);
    }
  }

  /** A block in a slot not yet treated is still marked used, so freeing it does not panic. */
  lemma FreeSlot(fs: Fs, i: nat, used: seq<bool>, slots: set<nat>, k: nat)
    requires Sound(fs) && i < |fs.inodes| && FreedSlots(fs, i, used, slots) && k < SLOTS && k !in slots
    ensures Ptr(fs, i, k) != 0 ==> Ptr(fs, i, k) < |used| && used[Ptr(fs, i, k)]
    ensures FreedSlots(fs, i, if Ptr(fs, i, k) != 0 then used[Ptr(fs, i, k) := false] else used, slots + {k})
  {
    var b := Ptr(fs, i, k);
    assert Owns(fs, i, k, b);
  }

}
