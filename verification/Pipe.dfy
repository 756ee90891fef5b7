/**
 The pipe ring buffer with its wrapping 32-bit counters.

 pi->lock is released only inside sleep, so a call of pipewrite or piperead is a sequence of
 sections, each run from one acquisition of the lock to the next sleep or return; sections of
 any number of readers and writers may follow one another in any order. What holds between
 sections of every such run is Valid: `sent` is all that was ever put in, `taken` all that was
 ever taken out.
 */
module Pipe {

  import opened Modular
  import opened Params

  const PIPESIZE := 512
  const UINT := 0x1_0000_0000


  /** How a section ends: asleep until another section has run, or back in the caller. */
  datatype Section = Asleep | Returned(value: int)

  /** Two counters at most PIPESIZE apart: what the code's comparisons of their wrapped values mean. */
  lemma CountersWrap(written: nat, read: nat)
    requires read <= written <= read + PIPESIZE
    ensures written % UINT == (read % UINT + PIPESIZE) % UINT <==> written == read + PIPESIZE
    ensures read % UINT == written % UINT <==> read == written
    ensures (written % UINT) % PIPESIZE == written % PIPESIZE && (read % UINT) % PIPESIZE == read % PIPESIZE
  {
    var a, b := written / UINT, read / UINT;
    assert written == a * UINT + written % UINT && read == b * UINT + read % UINT;
    assert a == b || a == b + 1;
    WrapsAt(written, PIPESIZE, 0x80_0000);
    WrapsAt(read, PIPESIZE, 0x80_0000);
  }

  lemma Increment(n: nat)
    ensures (n % UINT + 1) % UINT == (n + 1) % UINT
  {
  }

  class Pipe {

    const data: array<Byte>
    var nread: nat
    var nwrite: nat
    var readopen: bool
    var writeopen: bool
    ghost var sent: seq<Byte>
    ghost var taken: seq<Byte>

    /** What was taken is a prefix of what was sent, and the rest is in the buffer. */
    ghost predicate Valid()
      reads this, data
    {
      && data.Length == PIPESIZE && nwrite == |sent| % UINT && nread == |taken| % UINT
      && taken <= sent && |sent| <= |taken| + PIPESIZE
      && forall k :: |taken| <= k < |sent| ==> data[k % PIPESIZE] == sent[k]
    }

    constructor ()
      ensures Valid() && sent == [] && taken == [] && readopen && writeopen && fresh(data)
    {
      data := new Byte[PIPESIZE];
      nread, nwrite, readopen, writeopen := 0, 0, true, true;
      sent, taken := [], [];
    }

    /** Closes one end; true if the pipe is to be freed. */
    method Close(writable: bool) returns (last: bool)
      requires Valid()
      modifies this`readopen, this`writeopen
      ensures Valid() && readopen == (old(readopen) && writable) && writeopen == (old(writeopen) && !writable)
      ensures last <==> !readopen && !writeopen
    {
      if writable {
        writeopen := false;
      } else {
        readopen := false;
      }
      last := !readopen && !writeopen;
    }

    /** data[nwrite++ % PIPESIZE] = ch */
    method Put(ch: Byte)
      requires Valid() && |sent| < |taken| + PIPESIZE
      modifies this`nwrite, this`sent, data
      ensures Valid() && sent == old(sent) + [ch]
    {
      ghost var n := |sent|;
      CountersWrap(n, |taken|);
      Increment(n);
      data[nwrite % PIPESIZE] := ch;
      nwrite := (nwrite + 1) % UINT;
      sent := sent + [ch];
      forall k | |taken| <= k < n ensures k % PIPESIZE != n % PIPESIZE {
        DifferentResidues(k, n, PIPESIZE);
      }
    }

    /** ch = data[nread++ % PIPESIZE] */
    method Get() returns (ch: Byte)
      requires Valid() && |taken| < |sent|
      modifies this`nread, this`taken
      ensures Valid() && ch == sent[|old(taken)|] && taken == old(taken) + [ch]
    {
      CountersWrap(|sent|, |taken|);
      Increment(|taken|);
      ch := data[nread % PIPESIZE];
      nread := (nread + 1) % UINT;
      taken := taken + [ch];
    }

    /**
     A section of pipewrite that has written i of n bytes so far. src holds the bytes that
     copyin can read at addr; it fails past them. The process is found killed before every
     byte from number killedAt on.
     */
    method WriteSection(src: seq<Byte>, n: int, i: nat, killedAt: int) returns (r: Section, i': nat)
      requires Valid() && i <= |src| && (i <= n || i == 0)
      modifies this`nwrite, this`sent, data
      ensures Valid() && i <= i' <= |src| && sent == old(sent) + src[i..i'] && (i' == i || i' <= n)
      ensures i' > i ==> readopen && i' - 1 < killedAt
      ensures r == Returned(-1) <==> i' < n && (!readopen || i' >= killedAt)
      ensures r.Asleep? <==> i' < n && readopen && i' < killedAt && |sent| == |taken| + PIPESIZE
      ensures r.Returned? && r.value != -1 ==> r.value == i' && (i' >= n || i' == |src|)
    {
      i' := i;
      while i' < n
        invariant Valid() && i <= i' <= |src| && sent == old(sent) + src[i..i'] && (i' == i || i' <= n)
        invariant i' > i ==> readopen && i' - 1 < killedAt
        decreases n - i'
      {
        if !readopen || i' >= killedAt {
          return Returned(-1), i';
        }
        CountersWrap(|sent|, |taken|);
        if nwrite == (nread + PIPESIZE) % UINT {
          return Asleep, i';
        }
        if i' == |src| {
          break;
        }
        Put(src[i']);
        i' := i' + 1;
      }
      return Returned(i'), i';
    }

    /**
     A section of piperead for n bytes. room is how many bytes copyout can store at addr; a
     byte whose copyout fails has left the pipe all the same.
     */
    method ReadSection(n: int, room: nat, killed: bool) returns (r: Section, dst: seq<Byte>)
      requires Valid()
      modifies this`nread, this`taken
      ensures Valid() && |dst| <= room
      ensures r.Asleep? <==> old(|taken|) == |sent| && writeopen && !killed
      ensures r.Asleep? || r == Returned(-1) ==> taken == old(taken) && dst == []
      ensures r == Returned(-1) <==> old(|taken|) == |sent| && writeopen && killed
      ensures r.Returned? && r.value >= 0 ==> r.value == |dst| && (n <= 0 ==> dst == [])
      // as many bytes as it wants, can store and are there
      ensures r.Returned? && r.value >= 0 && n > 0 ==>
        var there := |sent| - old(|taken|);
        |dst| <= n && |dst| <= there && (|dst| == n || |dst| == room || |dst| == there)
      // a byte is lost exactly if more bytes were wanted, and there, than could be stored
      ensures r.Returned? && r.value >= 0 ==>
                if room < n && room < |sent| - old(|taken|) then taken == old(taken) + dst + [sent[old(|taken|) + room]]
                else taken == old(taken) + dst
    {
      dst := [];
      CountersWrap(|sent|, |taken|);
      if nread == nwrite && writeopen {
        return if killed then Returned(-1) else Asleep, dst;
      }
      while |dst| < n
        invariant Valid() && |dst| <= room && taken == old(taken) + dst && |dst| <= (if n > 0 then n else 0)
        decreases n - |dst|
      {
        CountersWrap(|sent|, |taken|);
        if nread == nwrite {
          break;
        }
        var ch := Get();
        if |dst| == room {
          return Returned(|dst|), dst;
        }
        dst := dst + [ch];
      }
      return Returned(|dst|), dst;
    }
  }
}
