/**
 How a file system lies on the disk: the words of its inode, bitmap and data blocks, how they are
 read back, and which blocks a transaction leaves as they are.
 */
module DiskImage {
  import opened Params
  import opened InodeSpec
  import opened InodeCode
  import opened Modular
  import R = RedoLog

  const WORDBITS := 32
  const INODEWORDS := 16  // an on-disk inode: its head of two words, the size, 13 addresses

  // ---------- the blocks of a file system ----------

  function Bits(bits: seq<bool>): nat {
    if bits == [] then 0 else Count(bits[0]) + 2 * Bits(bits[1..])
  }

  predicate Bit(w: int, k: nat)
    decreases k
  {
    if k == 0 then w % 2 == 1 else Bit(w / 2, k - 1)
  }

  lemma {:induction false} BitsRoundTrip(bits: seq<bool>, k: nat)
    requires k < |bits|
    ensures Bit(Bits(bits), k) == bits[k]
    decreases k
  {
    var rest := Bits(bits[1..]);
    assert Bits(bits) == Count(bits[0]) + 2 * rest;
    assert Bits(bits) / 2 == rest && Bits(bits) % 2 == Count(bits[0]);
    if k > 0 {
      BitsRoundTrip(bits[1..], k - 1);
    }
  }

  function DataWords(b: Block): (r: R.Block)
    ensures forall j :: 0 <= j < R.WORDS ==> r[j] == WordAt(b, j)
  {
    seq(R.WORDS, j requires 0 <= j < R.WORDS => WordAt(b, j))
  }

  /** The marks of 32 blocks from c on. */
  function MarksFrom(used: seq<bool>, c: nat): (bits: seq<bool>)
    ensures |bits| == WORDBITS && forall k :: 0 <= k < WORDBITS && c + k < |used| ==> bits[k] == used[c + k]
  {
    seq(WORDBITS, k requires 0 <= k => c + k < |used| && used[c + k])
  }

  function MarkWords(used: seq<bool>, first: nat): (r: R.Block)
    ensures forall j :: 0 <= j < R.WORDS ==> r[j] == Bits(MarksFrom(used, first + WORDBITS * j))
  {
    seq(R.WORDS, j requires 0 <= j => Bits(MarksFrom(used, first + WORDBITS * j)))
  }

  function InodeWord(head: Head, n: Inode, f: nat): int
    requires f < INODEWORDS
  {
    if f == 0 then head.first else if f == 1 then head.second else if f == 2 then n.size else n.addrs[f - 3]
  }

  /** Word f of the i-th inode; the rest of the last inode block is 0. */
  function WordOfInodes(heads: seq<Head>, inodes: seq<Inode>, i: nat, f: nat): int
    requires f < INODEWORDS
  {
    if i < |inodes| && i < |heads| then InodeWord(heads[i], inodes[i], f) else 0
  }

  function InodeWords(heads: seq<Head>, inodes: seq<Inode>, first: nat): (r: R.Block)
    ensures forall j :: 0 <= j < R.WORDS ==>
      r[j] == WordOfInodes(heads, inodes, first + j / INODEWORDS, j % INODEWORDS)
  {
    seq(R.WORDS, j requires 0 <= j => WordOfInodes(heads, inodes, first + j / INODEWORDS, j % INODEWORDS))
  }

  /** Block b of the disk, from the first inode block on, when the disk holds fs: data, bitmap or inodes. */
  function Image(k: FileSystem, fs: Fs, b: nat): R.Block
    requires k.inodestart <= b
  {
    if fs.meta <= b < |fs.data| then DataWords(fs.data[b])
    else if k.bmapstart <= b then MarkWords(fs.used, (b - k.bmapstart) * BPB)
    else InodeWords(k.heads, fs.inodes, (b - k.inodestart) * IPB)
  }

  ghost predicate OnDisk(k: FileSystem, y: R.Layout, d: R.Disk, fs: Fs) {
    |d| == |fs.data| && forall b: nat :: k.inodestart <= b < |d| && !y.Inside(b) ==> d[b] == Image(k, fs, b)
  }

  /** The order of the areas on the disk: log, inodes, bitmap, data. */
  ghost predicate LaidOut(k: FileSystem, y: R.Layout, fs: Fs) {
    y.start + y.size <= k.inodestart && k.Areas(fs) && |k.heads| == |fs.inodes|
  }

  /** Whether block c is marked in the bitmap on the disk. */
  predicate ReadMark(k: FileSystem, d: R.Disk, c: nat)
    requires k.BitmapBlock(c) < |d|
  {
    Bit(d[k.BitmapBlock(c)][c % BPB / WORDBITS], c % WORDBITS)
  }

  /** Word f of inode i on the disk. */
  function ReadInode(k: FileSystem, d: R.Disk, i: nat, f: nat): int
    requires k.InodeBlock(i) < |d| && f < INODEWORDS
  {
    d[k.InodeBlock(i)][i % IPB * INODEWORDS + f]
  }

  /** Byte p of block b on the disk, whose words are little-endian. */
  function ReadByte(d: R.Disk, b: nat, p: nat): int
    requires b < |d| && p < BSIZE
  {
    var w := d[b][p / 4];
    if p % 4 == 0 then w % 0x100
    else if p % 4 == 1 then w / 0x100 % 0x100
    else if p % 4 == 2 then w / 0x1_0000 % 0x100
    else w / 0x100_0000 % 0x100
  }

  /** Reading the disk as the kernel does gives the file system back: marks, inodes and bytes. */
  lemma OnDiskReads(k: FileSystem, y: R.Layout, d: R.Disk, fs: Fs)
    requires LaidOut(k, y, fs) && OnDisk(k, y, d, fs)
    ensures forall c: nat :: c < |fs.used| ==> ReadMark(k, d, c) == fs.used[c]
    ensures forall i: nat :: i < |fs.inodes| ==>
      && ReadInode(k, d, i, 0) == k.heads[i].first && ReadInode(k, d, i, 1) == k.heads[i].second
      && ReadInode(k, d, i, 2) == fs.inodes[i].size
      && forall j :: 0 <= j <= NDIRECT ==> ReadInode(k, d, i, 3 + j) == fs.inodes[i].addrs[j]
    ensures forall b: nat, p: nat :: fs.meta <= b < |d| && p < BSIZE ==> ReadByte(d, b, p) == fs.data[b][p]
  {
    hide ReadMark, ReadInode, ReadByte;
    forall c: nat | c < |fs.used| ensures ReadMark(k, d, c) == fs.used[c] {
      ReadsMark(k, y, d, fs, c);
    }
    forall i: nat, f: nat | i < |fs.inodes| && f < INODEWORDS
      ensures ReadInode(k, d, i, f) == InodeWord(k.heads[i], fs.inodes[i], f)
    {
      ReadsInode(k, y, d, fs, i, f);
    }
    forall b: nat, p: nat | fs.meta <= b < |d| && p < BSIZE ensures ReadByte(d, b, p) == fs.data[b][p] {
      ReadsByte(k, y, d, fs, b, p);
    }
  }

  lemma ReadsByte(k: FileSystem, y: R.Layout, d: R.Disk, fs: Fs, b: nat, p: nat)
    requires LaidOut(k, y, fs) && OnDisk(k, y, d, fs) && fs.meta <= b < |d| && p < BSIZE
    ensures ReadByte(d, b, p) == fs.data[b][p]
  {
    assert d[b] == DataWords(fs.data[b]);
    BytesOfWord(fs.data[b], p / 4);
  }

  lemma BytesOfWord(b: Block, j: nat)
    requires j < NINDIRECT
    ensures
      var w := WordAt(b, j);
      && w % 0x100 == b[4 * j] && w / 0x100 % 0x100 == b[4 * j + 1]
      && w / 0x1_0000 % 0x100 == b[4 * j + 2] && w / 0x100_0000 % 0x100 == b[4 * j + 3]
  {
    var w, b1: int, b2: int, b3: int := WordAt(b, j), b[4 * j + 1], b[4 * j + 2], b[4 * j + 3];
    assert w / 0x100 == b1 + 0x100 * b2 + 0x1_0000 * b3;
    assert w / 0x1_0000 == b2 + 0x100 * b3;
    assert w / 0x100_0000 == b3;
  }

  lemma MarkPosition(c: nat)
    ensures c % BPB / WORDBITS < R.WORDS && c / BPB * BPB + WORDBITS * (c % BPB / WORDBITS) + c % WORDBITS == c
  {
    AddMultiple(c / BPB * R.WORDS, WORDBITS, c % BPB);
  }

  lemma ReadsMark(k: FileSystem, y: R.Layout, d: R.Disk, fs: Fs, c: nat)
    requires LaidOut(k, y, fs) && OnDisk(k, y, d, fs) && c < |fs.used|
    ensures ReadMark(k, d, c) == fs.used[c]
  {
    hide Bits, Bit;
    MarkPosition(c);
    var first, j, m := c / BPB * BPB, c % BPB / WORDBITS, c % WORDBITS;
    assert first == (k.BitmapBlock(c) - k.bmapstart) * BPB;
    assert d[k.BitmapBlock(c)] == MarkWords(fs.used, first);
    BitsRoundTrip(MarksFrom(fs.used, first + WORDBITS * j), m);
  }

  lemma ReadsInode(k: FileSystem, y: R.Layout, d: R.Disk, fs: Fs, i: nat, f: nat)
    requires LaidOut(k, y, fs) && OnDisk(k, y, d, fs) && i < |fs.inodes| && f < INODEWORDS
    ensures ReadInode(k, d, i, f) == InodeWord(k.heads[i], fs.inodes[i], f)
  {
    hide InodeWord;
    var j := i % IPB * INODEWORDS + f;
    assert j / INODEWORDS == i % IPB && j % INODEWORDS == f && i / IPB * IPB + i % IPB == i;
    assert d[k.InodeBlock(i)] == InodeWords(k.heads, fs.inodes, i / IPB * IPB);
  }

  // ---------- blocks that were not logged ----------

  /** A block that was not logged looks the same before and after. */
  lemma UnloggedSame(k: FileSystem, x: Transaction, b: nat)
    requires k.Covers(x) && x.loose == {} && b !in x.blocks && k.inodestart <= b
    ensures |x.after.data| == |x.before.data| && Image(k, x.after, b) == Image(k, x.before, b)
  {
    assert x.blocks + x.loose == x.blocks;
    var i :|
      && k.Tracked(x.before, x.after, i, x.blocks + x.loose)
      && (x.after.inodes != x.before.inodes ==> k.InodeBlock(i) in x.blocks);
    var fs, fs' := x.before, x.after;
    if fs.meta <= b < |fs.data| {
      assert fs'.data[b] == fs.data[b];
    } else if k.bmapstart <= b {
      UnloggedMarks(k, fs, fs', i, x.blocks, b);
    } else {
      UnloggedInodes(k, fs, fs', i, x.blocks, b);
    }
  }

  lemma UnloggedMarks(k: FileSystem, fs: Fs, fs': Fs, i: nat, blocks: set<nat>, b: nat)
    requires k.Tracked(fs, fs', i, blocks) && b !in blocks && k.bmapstart <= b
    ensures MarkWords(fs'.used, (b - k.bmapstart) * BPB) == MarkWords(fs.used, (b - k.bmapstart) * BPB)
  {
    var first := (b - k.bmapstart) * BPB;
    forall j | 0 <= j < R.WORDS
      ensures MarksFrom(fs'.used, first + WORDBITS * j) == MarksFrom(fs.used, first + WORDBITS * j)
    {
      var c := first + WORDBITS * j;
      forall m: nat | c <= m < c + WORDBITS && m < |fs.used| ensures fs'.used[m] == fs.used[m] {
        assert k.BitmapBlock(m) == b;
      }
    }
  }

  lemma UnloggedInodes(k: FileSystem, fs: Fs, fs': Fs, i: nat, blocks: set<nat>, b: nat)
    requires k.Tracked(fs, fs', i, blocks) && (fs'.inodes != fs.inodes ==> k.InodeBlock(i) in blocks)
    requires b !in blocks && k.inodestart <= b
    ensures InodeWords(k.heads, fs'.inodes, (b - k.inodestart) * IPB)
            == InodeWords(k.heads, fs.inodes, (b - k.inodestart) * IPB)
  {
    var first := (b - k.inodestart) * IPB;
    forall j | 0 <= j < R.WORDS
      ensures WordOfInodes(k.heads, fs'.inodes, first + j / INODEWORDS, j % INODEWORDS)
           == WordOfInodes(k.heads, fs.inodes, first + j / INODEWORDS, j % INODEWORDS)
    {
      assert k.InodeBlock(first + j / INODEWORDS) == b;
    }
  }
}
