/**
 Inodes, the free bitmap and data blocks as values.

 An inode has 13 addresses; the last one names a block of 256 further addresses stored as
 little-endian words. All 269 pointers of an inode are numbered as slots: 0 to 11 direct,
 12 the indirect block, 13 to 268 its entries. `Sound` is the invariant of the file system:
 pointers of all inodes are distinct, a block is marked used exactly if it is a metadata
 block or has an owner, and files have no holes.
 */
module InodeSpec {

  import opened Params

  const BSIZE := 1024
  const NDIRECT := 12
  const NINDIRECT := 256
  const MAXFILE := NDIRECT + NINDIRECT
  const SLOTS := NDIRECT + 1 + NINDIRECT
  const UINT_MAX := 0x1_0000_0000

  type Block = b: seq<Byte> | |b| == BSIZE witness seq(BSIZE, i => 0)
  type Addrs = a: seq<nat> | |a| == NDIRECT + 1 witness seq(NDIRECT + 1, i => 0)

  function Zeros(): (b: Block)
    ensures forall i :: 0 <= i < BSIZE ==> b[i] == 0
  {
    seq(BSIZE, i => 0)
  }

  function NoAddrs(): (a: Addrs)
    ensures forall k :: 0 <= k <= NDIRECT ==> a[k] == 0
  {
    seq(NDIRECT + 1, i => 0)
  }

  // ---------- words in a block ----------

  function WordAt(b: Block, j: nat): (w: nat)
    requires j < NINDIRECT
    ensures w < UINT_MAX
  {
    var b0: int, b1: int, b2: int, b3: int := b[4 * j], b[4 * j + 1], b[4 * j + 2], b[4 * j + 3];
    b0 + 0x100 * b1 + 0x1_0000 * b2 + 0x100_0000 * b3
  }

  function SetWord(b: Block, j: nat, w: nat): Block
    requires j < NINDIRECT && w < UINT_MAX
  {
    b[4 * j := w % 0x100][4 * j + 1 := w / 0x100 % 0x100]
     [4 * j + 2 := w / 0x1_0000 % 0x100][4 * j + 3 := w / 0x100_0000]
  }

  lemma LittleEndian(w: nat)
    requires w < UINT_MAX
    ensures w == w % 0x100 + 0x100 * (w / 0x100 % 0x100) + 0x1_0000 * (w / 0x1_0000 % 0x100)
                 + 0x100_0000 * (w / 0x100_0000)
  {
    assert w / 0x1_0000 == w / 0x100 / 0x100 && w / 0x100_0000 == w / 0x1_0000 / 0x100;
  }

  lemma WordRoundTrip(b: Block, j: nat, w: nat)
    requires j < NINDIRECT && w < UINT_MAX
    ensures WordAt(SetWord(b, j, w), j) == w
    ensures forall i :: 0 <= i < NINDIRECT && i != j ==> WordAt(SetWord(b, j, w), i) == WordAt(b, i)
  {
    LittleEndian(w);
    var r := SetWord(b, j, w);
    assert forall x :: 0 <= x < BSIZE && !(4 * j <= x < 4 * j + 4) ==> r[x] == b[x];
  }

  lemma ZeroWords()
    ensures forall j :: 0 <= j < NINDIRECT ==> WordAt(Zeros(), j) == 0
  {
  }

  // ---------- the file system ----------

  datatype Inode = Inode(size: nat, addrs: Addrs)

  /** `meta` is the number of blocks in front of the data area: boot, superblock, log, inodes, bitmap. */
  datatype Fs = Fs(meta: nat, used: seq<bool>, data: seq<Block>, inodes: seq<Inode>)

  ghost predicate Shaped(fs: Fs) {
    && 1 <= fs.meta <= |fs.data| < UINT_MAX
    && |fs.used| == |fs.data|
    && forall i :: 0 <= i < |fs.inodes| ==> fs.inodes[i].addrs[NDIRECT] < |fs.data|
  }

  /** The pointer in slot k of inode i, or 0. */
  function Ptr(fs: Fs, i: nat, k: nat): nat
    requires Shaped(fs) && i < |fs.inodes| && k < SLOTS
  {
    var a := fs.inodes[i].addrs;
    if k <= NDIRECT then a[k] else if a[NDIRECT] == 0 then 0 else WordAt(fs.data[a[NDIRECT]], k - NDIRECT - 1)
  }

  /** The slot that holds the address of the file's block number bn. */
  function SlotOf(bn: nat): (k: nat)
    requires bn < MAXFILE
    ensures k < SLOTS && k != NDIRECT
  {
    if bn < NDIRECT then bn else bn + 1
  }

  ghost predicate Owns(fs: Fs, i: nat, k: nat, b: nat)
    requires Shaped(fs)
  {
    i < |fs.inodes| && k < SLOTS && Ptr(fs, i, k) == b
  }

  ghost predicate HasOwner(fs: Fs, b: nat)
    requires Shaped(fs)
  {
    exists i: nat, k: nat :: Owns(fs, i, k, b)
  }

  ghost predicate InDataArea(fs: Fs)
    requires Shaped(fs)
  {
    forall i, k :: 0 <= i < |fs.inodes| && 0 <= k < SLOTS && Ptr(fs, i, k) != 0 ==> fs.meta <= Ptr(fs, i, k) < |fs.data|
  }

  /** No two slots of any inodes hold the same block. */
  ghost predicate Exclusive(fs: Fs)
    requires Shaped(fs)
  {
    forall i, k, j, m |
      && 0 <= i < |fs.inodes| && 0 <= k < SLOTS && 0 <= j < |fs.inodes| && 0 <= m < SLOTS
      && Ptr(fs, i, k) == Ptr(fs, j, m) != 0
      :: i == j && k == m
  }

  /** Free and owned data blocks are complementary: nothing leaks and nothing is given out twice. */
  ghost predicate Accounted(fs: Fs)
    requires Shaped(fs)
  {
    && (forall b :: 0 <= b < fs.meta ==> fs.used[b])
    && (forall b :: fs.meta <= b < |fs.data| ==> (fs.used[b] <==> HasOwner(fs, b)))
  }

  /** Every block below the size of a file exists. */
  ghost predicate NoHoles(fs: Fs)
    requires Shaped(fs)
  {
    && (forall i :: 0 <= i < |fs.inodes| ==> fs.inodes[i].size <= MAXFILE * BSIZE)
    && (forall i, bn :: 0 <= i < |fs.inodes| && 0 <= bn < MAXFILE && bn * BSIZE < fs.inodes[i].size ==>
      Ptr(fs, i, SlotOf(bn)) != 0)
  }

  ghost predicate Sound(fs: Fs)
    ensures Sound(fs) ==> Shaped(fs)
  {
    Shaped(fs) && InDataArea(fs) && Exclusive(fs) && Accounted(fs) && NoHoles(fs)
  }

  // ---------- file contents ----------

  /** Position p of inode i is backed by a block. */
  predicate Mapped(fs: Fs, i: nat, p: nat)
    requires Shaped(fs) && i < |fs.inodes|
  {
    p < MAXFILE * BSIZE && 0 < Ptr(fs, i, SlotOf(p / BSIZE)) < |fs.data|
  }

  function ByteAt(fs: Fs, i: nat, p: nat): Byte
    requires Shaped(fs) && i < |fs.inodes| && Mapped(fs, i, p)
  {
    fs.data[Ptr(fs, i, SlotOf(p / BSIZE))][p % BSIZE]
  }

  lemma BelowSizeMapped(fs: Fs, i: nat, p: nat)
    requires Sound(fs) && i < |fs.inodes| && p < fs.inodes[i].size
    ensures Mapped(fs, i, p)
  {
    assert Ptr(fs, i, SlotOf(p / BSIZE)) != 0;
  }

  /** The bytes of a file. */
  ghost function Content(fs: Fs, i: nat): (c: seq<Byte>)
    requires Sound(fs) && i < |fs.inodes|
    ensures |c| == fs.inodes[i].size
  {
    seq(fs.inodes[i].size, p requires 0 <= p < fs.inodes[i].size => BelowSizeMapped(fs, i, p); ByteAt(fs, i, p))
  }

  /** s written over c at position off, extending c if it reaches beyond the end. */
  function Spliced(c: seq<Byte>, off: nat, s: seq<Byte>): seq<Byte>
    requires off <= |c|
  {
    c[..off] + s + (if off + |s| < |c| then c[off + |s|..] else [])
  }

  // ---------- attaching a fresh block to a slot ----------

  /** The free block b zeroed, marked used and put into slot k of inode i. */
  function Attached(fs: Fs, i: nat, k: nat, b: nat): Fs
    requires Shaped(fs) && i < |fs.inodes| && k < SLOTS && b < |fs.data|
  {
    var ip := fs.inodes[i];
    var data := fs.data[b := Zeros()];
    var table := ip.addrs[NDIRECT];
    if k <= NDIRECT then Fs(fs.meta, fs.used[b := true], data, fs.inodes[i := Inode(ip.size, ip.addrs[k := b])])
    else Fs(fs.meta, fs.used[b := true], data[table := SetWord(data[table], k - NDIRECT - 1, b)], fs.inodes)
  }

  /** A free block may go into an empty slot; entries need the indirect block first. */
  ghost predicate Attachable(fs: Fs, i: nat, k: nat, b: nat) {
    && Sound(fs) && i < |fs.inodes| && k < SLOTS && b < |fs.data|
    && !fs.used[b] && Ptr(fs, i, k) == 0
    && (k > NDIRECT ==> Ptr(fs, i, NDIRECT) != 0)
  }

  lemma FreeBlock(fs: Fs, b: nat)
    requires Sound(fs) && b < |fs.data| && !fs.used[b]
    ensures b >= fs.meta
    ensures forall i, k :: 0 <= i < |fs.inodes| && 0 <= k < SLOTS ==> Ptr(fs, i, k) != b
  {
    forall i, k | 0 <= i < |fs.inodes| && 0 <= k < SLOTS ensures Ptr(fs, i, k) != b {
      if Ptr(fs, i, k) == b {
        assert Owns(fs, i, k, b);
      }
    }
  }

  /** Attaching changes one slot and no other. */
  lemma AttachedPtr(fs: Fs, i: nat, k: nat, b: nat)
    requires Attachable(fs, i, k, b)
    ensures Shaped(Attached(fs, i, k, b))
    ensures forall j, m :: 0 <= j < |fs.inodes| && 0 <= m < SLOTS ==>
      Ptr(Attached(fs, i, k, b), j, m) == if j == i && m == k then b else Ptr(fs, j, m)
  {
    FreeBlock(fs, b);
    var fs' := Attached(fs, i, k, b);
    ZeroWords();
    forall j, m | 0 <= j < |fs.inodes| && 0 <= m < SLOTS
      ensures Ptr(fs', j, m) == if j == i && m == k then b else Ptr(fs, j, m)
    {
      assert Ptr(fs, j, NDIRECT) != b;
      if k > NDIRECT {
        WordRoundTrip(fs.data[fs.inodes[i].addrs[NDIRECT]], k - NDIRECT - 1, b);
        assert j != i && Ptr(fs, j, NDIRECT) != 0 ==> Ptr(fs, j, NDIRECT) != Ptr(fs, i, NDIRECT);
      }
    }
  }

  /** Attaching changes no block that a slot for file data held before. */
  lemma AttachedData(fs: Fs, i: nat, k: nat, b: nat, j: nat, m: nat)
    requires Attachable(fs, i, k, b) && j < |fs.inodes| && m < SLOTS && m != NDIRECT && Ptr(fs, j, m) != 0
    ensures Ptr(fs, j, m) < |fs.data| && Attached(fs, i, k, b).data[Ptr(fs, j, m)] == fs.data[Ptr(fs, j, m)]
  {
    FreeBlock(fs, b);
    if k > NDIRECT {
      assert Ptr(fs, j, m) != Ptr(fs, i, NDIRECT);
    }
  }

  lemma AttachedSound(fs: Fs, i: nat, k: nat, b: nat)
    requires Attachable(fs, i, k, b)
    ensures Sound(Attached(fs, i, k, b))
  {
    AttachedPtr(fs, i, k, b);
    FreeBlock(fs, b);
    var fs' := Attached(fs, i, k, b);
    forall c | fs.meta <= c < |fs.data| ensures fs'.used[c] <==> HasOwner(fs', c) {
      if c == b {
        assert Owns(fs', i, k, c);
      } else {
        if HasOwner(fs, c) {
          var j: nat, m: nat :| Owns(fs, j, m, c);
          assert Owns(fs', j, m, c);
        }
        if HasOwner(fs', c) {
          var j: nat, m: nat :| Owns(fs', j, m, c);
          assert Owns(fs, j, m, c);
        }
      }
    }
  }

  /** Ownership depends on the pointers only. */
  lemma SameSlots(fs: Fs, fs': Fs)
    requires Sound(fs) && Shaped(fs')
    requires fs'.meta == fs.meta && fs'.used == fs.used && |fs'.data| == |fs.data| && |fs'.inodes| == |fs.inodes|
    requires forall j, m :: 0 <= j < |fs.inodes| && 0 <= m < SLOTS ==> Ptr(fs', j, m) == Ptr(fs, j, m)
    ensures InDataArea(fs') && Exclusive(fs') && Accounted(fs')
  {
    forall c | fs.meta <= c < |fs.data| ensures fs'.used[c] <==> HasOwner(fs', c) {
      if HasOwner(fs, c) {
        var j: nat, m: nat :| Owns(fs, j, m, c);
        assert Owns(fs', j, m, c);
      }
      if HasOwner(fs', c) {
        var j: nat, m: nat :| Owns(fs', j, m, c);
        assert Owns(fs, j, m, c);
      }
    }
  }

  // ---------- overwriting file data ----------

  /** Block `addr` with s written over it at position o. */
  function Patched(fs: Fs, addr: nat, o: nat, s: seq<Byte>): Fs
    requires addr < |fs.data| && o + |s| <= BSIZE
  {
    var b: seq<Byte> := fs.data[addr];
    Fs(fs.meta, fs.used, fs.data[addr := b[..o] + s + b[o + |s|..]], fs.inodes)
  }

  /** Patching a data block of a file moves no pointer. */
  lemma PatchedSound(fs: Fs, i: nat, k: nat, o: nat, s: seq<Byte>)
    requires Sound(fs) && i < |fs.inodes| && k < SLOTS && k != NDIRECT && Ptr(fs, i, k) != 0 && o + |s| <= BSIZE
    ensures Ptr(fs, i, k) < |fs.data| && Sound(Patched(fs, Ptr(fs, i, k), o, s))
    ensures forall j, m :: 0 <= j < |fs.inodes| && 0 <= m < SLOTS ==>
      Ptr(Patched(fs, Ptr(fs, i, k), o, s), j, m) == Ptr(fs, j, m)
  {
    var fs' := Patched(fs, Ptr(fs, i, k), o, s);
    forall j, m | 0 <= j < |fs.inodes| && 0 <= m < SLOTS ensures Ptr(fs', j, m) == Ptr(fs, j, m) {
      assert Ptr(fs, j, NDIRECT) != Ptr(fs, i, k);
    }
    SameSlots(fs, fs');
  }

  /** Patching block off / BSIZE changes the bytes from off on, and no others of any file. */
  lemma PatchedByte(fs: Fs, i: nat, off: nat, s: seq<Byte>, j: nat, p: nat)
    requires Sound(fs) && i < |fs.inodes| && j < |fs.inodes| && off < MAXFILE * BSIZE
    requires off % BSIZE + |s| <= BSIZE && Mapped(fs, i, off) && Mapped(fs, j, p)
    ensures
      var fs' := Patched(fs, Ptr(fs, i, SlotOf(off / BSIZE)), off % BSIZE, s);
      Sound(fs') && Mapped(fs', j, p)
      && ByteAt(fs', j, p) == if j == i && off <= p < off + |s| then s[p - off] else ByteAt(fs, j, p)
  {
    var k, m := SlotOf(off / BSIZE), SlotOf(p / BSIZE);
    PatchedSound(fs, i, k, off % BSIZE, s);
    if Ptr(fs, j, m) == Ptr(fs, i, k) {
      assert j == i && off / BSIZE == p / BSIZE;
    }
  }

  /** The file grown to a size below which every block exists. */
  function Resized(fs: Fs, i: nat, size: nat): Fs
    requires i < |fs.inodes|
  {
    fs.(inodes := fs.inodes[i := fs.inodes[i].(size := size)])
  }

  lemma ResizedSound(fs: Fs, i: nat, size: nat)
    requires Sound(fs) && i < |fs.inodes| && fs.inodes[i].size <= size <= MAXFILE * BSIZE
    requires forall p :: fs.inodes[i].size <= p < size ==> Mapped(fs, i, p)
    ensures Sound(Resized(fs, i, size))
    ensures forall j, m :: 0 <= j < |fs.inodes| && 0 <= m < SLOTS ==> Ptr(Resized(fs, i, size), j, m) == Ptr(fs, j, m)
  {
    var fs' := Resized(fs, i, size);
    assert Shaped(fs');
    forall j, m | 0 <= j < |fs.inodes| && 0 <= m < SLOTS ensures Ptr(fs', j, m) == Ptr(fs, j, m) {}
    SameSlots(fs, fs');
    forall bn | 0 <= bn < MAXFILE && bn * BSIZE < size ensures Ptr(fs', i, SlotOf(bn)) != 0 {
      if fs.inodes[i].size <= bn * BSIZE {
        assert Mapped(fs, i, bn * BSIZE);
      } else {
        assert Ptr(fs, i, SlotOf(bn)) != 0;
      }
    }
  }

  // ---------- truncation ----------

  /** The blocks of inode i. */
  ghost function Blocks(fs: Fs, i: nat): (bs: set<nat>)
    requires Shaped(fs) && i < |fs.inodes|
    ensures forall b: nat :: b in bs <==> b != 0 && exists k: nat :: Owns(fs, i, k, b)
  {
    set k: nat | k < SLOTS && Ptr(fs, i, k) != 0 && Owns(fs, i, k, Ptr(fs, i, k)) :: Ptr(fs, i, k)
  }

  /** fs' is fs with inode i emptied and exactly its blocks free. */
  ghost predicate Truncated(fs: Fs, i: nat, fs': Fs)
    requires Shaped(fs) && i < |fs.inodes|
  {
    && fs'.meta == fs.meta && fs'.data == fs.data
    && fs'.inodes == fs.inodes[i := Inode(0, NoAddrs())]
    && |fs'.used| == |fs.used|
    && forall b :: 0 <= b < |fs.used| ==> fs'.used[b] == (fs.used[b] && b !in Blocks(fs, i))
  }

  lemma TruncatedSound(fs: Fs, i: nat, fs': Fs)
    requires Sound(fs) && i < |fs.inodes| && Truncated(fs, i, fs')
    ensures Sound(fs')
    ensures forall j, m :: 0 <= j < |fs.inodes| && 0 <= m < SLOTS ==>
      Ptr(fs', j, m) == if j == i then 0 else Ptr(fs, j, m)
  {
    assert Shaped(fs');
    forall j, m | 0 <= j < |fs.inodes| && 0 <= m < SLOTS
      ensures Ptr(fs', j, m) == if j == i then 0 else Ptr(fs, j, m)
    {}
    forall c | fs.meta <= c < |fs.data| ensures fs'.used[c] <==> HasOwner(fs', c) {
      if fs'.used[c] {
        var j: nat, m: nat :| Owns(fs, j, m, c);
        assert j != i;
        assert Owns(fs', j, m, c);
      }
      if HasOwner(fs', c) {
        var j: nat, m: nat :| Owns(fs', j, m, c);
        assert Owns(fs, j, m, c) && j != i;
      }
    }
  }

  /** Truncating one file leaves the bytes of the others alone. */
  lemma TruncatedContent(fs: Fs, i: nat, fs': Fs, j: nat)
    requires Sound(fs) && i < |fs.inodes| && j < |fs.inodes| && Truncated(fs, i, fs')
    ensures Sound(fs') && Content(fs', j) == if j == i then [] else Content(fs, j)
  {
    TruncatedSound(fs, i, fs');
    if j != i {
      forall p | 0 <= p < fs.inodes[j].size ensures Content(fs', j)[p] == Content(fs, j)[p] {
        BelowSizeMapped(fs, j, p);
        BelowSizeMapped(fs', j, p);
      }
    }
  }
}
