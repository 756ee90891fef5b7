/**
 How the bytes of files evolve while blocks are attached and patched: the steps of a write
 in terms of file contents.
 */
module InodeWrites {
  import opened Params
  import opened InodeSpec

  /** fs' has the same files, with all their backed bytes, and possibly more blocks. */
  ghost predicate KeepsBytes(fs: Fs, fs': Fs)
    requires Shaped(fs) && Shaped(fs')
  {
    && |fs'.inodes| == |fs.inodes| && |fs'.data| == |fs.data| && fs'.meta == fs.meta
    && (forall j :: 0 <= j < |fs.inodes| ==> fs'.inodes[j].size == fs.inodes[j].size)
    && (forall j: nat, p: nat | j < |fs.inodes| && Mapped(fs, j, p) ::
      Mapped(fs', j, p) && ByteAt(fs', j, p) == ByteAt(fs, j, p))
  }

  lemma AttachedKeepsBytes(fs: Fs, i: nat, k: nat, b: nat)
    requires Attachable(fs, i, k, b)
    ensures Sound(Attached(fs, i, k, b)) && KeepsBytes(fs, Attached(fs, i, k, b))
  {
    AttachedSound(fs, i, k, b);
    AttachedPtr(fs, i, k, b);
    forall j: nat, p: nat | j < |fs.inodes| && Mapped(fs, j, p)
      ensures Mapped(Attached(fs, i, k, b), j, p) && ByteAt(Attached(fs, i, k, b), j, p) == ByteAt(fs, j, p)
    {
      AttachedData(fs, i, k, b, j, SlotOf(p / BSIZE));
    }
  }

  /** Between fs and fs' the bytes s were written to inode i at off, and nothing else changed. */
  ghost predicate Written(fs: Fs, fs': Fs, i: nat, off: nat, s: seq<Byte>)
    requires Shaped(fs) && Shaped(fs')
    ensures Written(fs, fs', i, off, s) ==> |fs'.inodes| == |fs.inodes|
  {
    && |fs'.inodes| == |fs.inodes| && |fs'.data| == |fs.data| && fs'.meta == fs.meta && i < |fs.inodes|
    && (forall j :: 0 <= j < |fs.inodes| ==> fs'.inodes[j].size == fs.inodes[j].size)
    && (forall j: nat, p: nat | j < |fs.inodes| && Mapped(fs, j, p) && !(j == i && off <= p < off + |s|) ::
      Mapped(fs', j, p) && ByteAt(fs', j, p) == ByteAt(fs, j, p))
    && (forall p: nat | off <= p < off + |s| :: Mapped(fs', i, p) && ByteAt(fs', i, p) == s[p - off])
  }

  lemma NothingWritten(fs: Fs, i: nat, off: nat)
    requires Sound(fs) && i < |fs.inodes|
    ensures Written(fs, fs, i, off, [])
  {
  }

  lemma WrittenKept(fs: Fs, fs1: Fs, fs2: Fs, i: nat, off: nat, s: seq<Byte>)
    requires Sound(fs) && Sound(fs1) && Sound(fs2) && Written(fs, fs1, i, off, s) && KeepsBytes(fs1, fs2)
    ensures Written(fs, fs2, i, off, s)
  {
  }

  lemma PieceByte(fs1: Fs, fs2: Fs, i: nat, o: nat, t: seq<Byte>, j: nat, p: nat)
    requires Sound(fs1) && Sound(fs2) && KeepsBytes(fs1, fs2) && i < |fs1.inodes| && j < |fs1.inodes|
    requires Mapped(fs2, i, o) && o % BSIZE + |t| <= BSIZE
    requires Mapped(fs1, j, p) || (j == i && o <= p < o + |t|)
    ensures
      var fs3 := Patched(fs2, Ptr(fs2, i, SlotOf(o / BSIZE)), o % BSIZE, t);
      Sound(fs3) && Mapped(fs3, j, p)
      && ByteAt(fs3, j, p) == if j == i && o <= p < o + |t| then t[p - o] else ByteAt(fs1, j, p)
  {
    if Mapped(fs1, j, p) {
      assert Mapped(fs2, j, p);
    } else {
      assert p / BSIZE == o / BSIZE;
    }
    PatchedByte(fs2, i, o, t, j, p);
  }

  lemma PieceShape(fs1: Fs, fs2: Fs, i: nat, o: nat, t: seq<Byte>)
    requires Sound(fs1) && Sound(fs2) && KeepsBytes(fs1, fs2) && i < |fs1.inodes|
    requires Mapped(fs2, i, o) && o % BSIZE + |t| <= BSIZE
    ensures |fs2.inodes| == |fs1.inodes| && Ptr(fs2, i, SlotOf(o / BSIZE)) < |fs2.data|
    ensures
      var fs3 := Patched(fs2, Ptr(fs2, i, SlotOf(o / BSIZE)), o % BSIZE, t);
      Sound(fs3) && |fs3.inodes| == |fs1.inodes| && |fs3.data| == |fs1.data| && fs3.meta == fs1.meta
      && forall j :: 0 <= j < |fs1.inodes| ==> fs3.inodes[j].size == fs1.inodes[j].size
  {
    PatchedSound(fs2, i, SlotOf(o / BSIZE), o % BSIZE, t);
    hide Sound;
  }

  /** Extending a write by a piece that stays within one block. */
  lemma WrittenFurther(fs: Fs, fs1: Fs, fs2: Fs, i: nat, off: nat, s: seq<Byte>, t: seq<Byte>)
    requires Sound(fs) && Sound(fs1) && Sound(fs2)
    requires Written(fs, fs1, i, off, s) && KeepsBytes(fs1, fs2)
    requires Mapped(fs2, i, off + |s|) && (off + |s|) % BSIZE + |t| <= BSIZE
    ensures
      var fs3 := Patched(fs2, Ptr(fs2, i, SlotOf((off + |s|) / BSIZE)), (off + |s|) % BSIZE, t);
      Sound(fs3) && Written(fs, fs3, i, off, s + t)
  {
    hide Sound, ByteAt, KeepsBytes, Patched;
    var o := off + |s|;
    PieceShape(fs1, fs2, i, o, t);
    var fs3 := Patched(fs2, Ptr(fs2, i, SlotOf(o / BSIZE)), o % BSIZE, t);
    forall j: nat, p: nat | j < |fs.inodes| && Mapped(fs, j, p) && !(j == i && off <= p < off + |s + t|)
      ensures Mapped(fs3, j, p) && ByteAt(fs3, j, p) == ByteAt(fs, j, p)
    {
      ElsewhereKept(fs, fs1, fs2, i, off, s, t, j, p);
    }
    forall p: nat | off <= p < off + |s + t|
      ensures Mapped(fs3, i, p) && ByteAt(fs3, i, p) == (s + t)[p - off]
    {
      WrittenAt(fs, fs1, fs2, i, off, s, t, p);
    }
  }

  /** A byte that neither the write so far nor the piece covers. */
  lemma ElsewhereKept(fs: Fs, fs1: Fs, fs2: Fs, i: nat, off: nat, s: seq<Byte>, t: seq<Byte>, j: nat, p: nat)
    requires Sound(fs) && Sound(fs1) && Sound(fs2)
    requires Written(fs, fs1, i, off, s) && KeepsBytes(fs1, fs2)
    requires Mapped(fs2, i, off + |s|) && (off + |s|) % BSIZE + |t| <= BSIZE
    requires j < |fs.inodes| && Mapped(fs, j, p) && !(j == i && off <= p < off + |s + t|)
    ensures
      var fs3 := Patched(fs2, Ptr(fs2, i, SlotOf((off + |s|) / BSIZE)), (off + |s|) % BSIZE, t);
      Sound(fs3) && Mapped(fs3, j, p) && ByteAt(fs3, j, p) == ByteAt(fs, j, p)
  {
    hide Sound, KeepsBytes;
    assert Mapped(fs1, j, p) && ByteAt(fs1, j, p) == ByteAt(fs, j, p);
    PieceByte(fs1, fs2, i, off + |s|, t, j, p);
  }

  lemma WrittenAt(fs: Fs, fs1: Fs, fs2: Fs, i: nat, off: nat, s: seq<Byte>, t: seq<Byte>, p: nat)
    requires Sound(fs) && Sound(fs1) && Sound(fs2)
    requires Written(fs, fs1, i, off, s) && KeepsBytes(fs1, fs2)
    requires Mapped(fs2, i, off + |s|) && (off + |s|) % BSIZE + |t| <= BSIZE
    requires off <= p < off + |s + t|
    ensures
      var fs3 := Patched(fs2, Ptr(fs2, i, SlotOf((off + |s|) / BSIZE)), (off + |s|) % BSIZE, t);
      Sound(fs3) && Mapped(fs3, i, p) && ByteAt(fs3, i, p) == (s + t)[p - off]
  {
    hide Sound, KeepsBytes;
    if p < off + |s| {
      assert Mapped(fs1, i, p) && ByteAt(fs1, i, p) == s[p - off];
    }
    PieceByte(fs1, fs2, i, off + |s|, t, i, p);
  }

  lemma SplicedAt(c: seq<Byte>, off: nat, s: seq<Byte>)
    requires off <= |c|
    ensures |Spliced(c, off, s)| == if off + |s| > |c| then off + |s| else |c|
    ensures forall p :: 0 <= p < |Spliced(c, off, s)| ==>
      Spliced(c, off, s)[p] == if off <= p < off + |s| then s[p - off] else c[p]
  {
  }

  /** Writing s and then t right behind it is writing s + t. */
  lemma SplicedTwice(c: seq<Byte>, off: nat, s: seq<Byte>, t: seq<Byte>)
    requires off <= |c|
    ensures off + |s| <= |Spliced(c, off, s)| && Spliced(Spliced(c, off, s), off + |s|, t) == Spliced(c, off, s + t)
  {
    SplicedAt(c, off, s);
    SplicedAt(Spliced(c, off, s), off + |s|, t);
    SplicedAt(c, off, s + t);
  }

  /** c with s written at off, cut to n bytes beyond off or to its old length, whichever is more. */
  function Shown(c: seq<Byte>, off: nat, s: seq<Byte>, n: nat): (r: seq<Byte>)
    requires off <= |c| && n <= |s|
    ensures |r| == if off + n > |c| then off + n else |c|
  {
    SplicedAt(c, off, s);
    Spliced(c, off, s)[..if off + n > |c| then off + n else |c|]
  }

  lemma ShownAll(c: seq<Byte>, off: nat, s: seq<Byte>)
    requires off <= |c|
    ensures Shown(c, off, s, |s|) == Spliced(c, off, s)
  {
    SplicedAt(c, off, s);
  }

  /** Writing s and then t right behind it, of which n bytes count. */
  lemma ShownTwice(c: seq<Byte>, off: nat, s: seq<Byte>, t: seq<Byte>, n: nat)
    requires off <= |c| && n <= |t|
    ensures off + |s| <= |Spliced(c, off, s)|
    ensures Shown(Spliced(c, off, s), off + |s|, t, n) == Shown(c, off, s + t, |s| + n)
  {
    SplicedAt(c, off, s);
    SplicedTwice(c, off, s, t);
  }

  /**
   When the size is adjusted after a write of s of which n bytes count, the file is the old one
   with s spliced in, as far as the size goes.
   */
  lemma WrittenContent(fs: Fs, fs': Fs, i: nat, off: nat, s: seq<Byte>, n: nat, size: nat)
    requires Sound(fs) && Sound(fs') && Written(fs, fs', i, off, s) && n <= |s|
    requires off <= fs.inodes[i].size && off + |s| <= MAXFILE * BSIZE
    requires size == if off + n > fs.inodes[i].size then off + n else fs.inodes[i].size
    ensures Sound(Resized(fs', i, size))
    ensures Content(Resized(fs', i, size), i) == Shown(Content(fs, i), off, s, n)
    ensures forall j :: 0 <= j < |fs.inodes| && j != i ==> Content(Resized(fs', i, size), j) == Content(fs, j)
  {
    ResizedSound(fs', i, size);
    var fs'' := Resized(fs', i, size);
    SplicedAt(Content(fs, i), off, s);
    forall p | 0 <= p < size ensures Content(fs'', i)[p] == Shown(Content(fs, i), off, s, n)[p] {
      WrittenByte(fs, fs', i, off, s, n, size, i, p);
    }
    forall j | 0 <= j < |fs.inodes| && j != i ensures Content(fs'', j) == Content(fs, j) {
      forall p | 0 <= p < fs.inodes[j].size ensures Content(fs'', j)[p] == Content(fs, j)[p] {
        WrittenByte(fs, fs', i, off, s, n, size, j, p);
      }
    }
  }

  lemma WrittenByte(fs: Fs, fs': Fs, i: nat, off: nat, s: seq<Byte>, n: nat, size: nat, j: nat, p: nat)
    requires Sound(fs) && Sound(fs') && Written(fs, fs', i, off, s) && j < |fs.inodes| && n <= |s|
    requires Sound(Resized(fs', i, size)) && p < Resized(fs', i, size).inodes[j].size
    requires off <= fs.inodes[i].size
    requires size == if off + n > fs.inodes[i].size then off + n else fs.inodes[i].size
    requires forall j, m :: 0 <= j < |fs.inodes| && 0 <= m < SLOTS ==>
      Ptr(Resized(fs', i, size), j, m) == Ptr(fs', j, m)
    ensures Content(Resized(fs', i, size), j)[p] ==
            if j == i && off <= p < off + |s| then s[p - off] else Content(fs, j)[p]
  {
    BelowSizeMapped(Resized(fs', i, size), j, p);
    if !(j == i && off <= p < off + |s|) {
      BelowSizeMapped(fs, j, p);
    }
    assert Mapped(fs', j, p);
  }
}
