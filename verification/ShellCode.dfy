/**
 The shell's tokenizer and parser with their loops, and nulterminate on the line's buffer. Each
 method is proved to compute the function of ShellParser that specifies it.
 */
module ShellCode {

  import opened ShellParser

  method GetTokenLoop(s: string, i: nat) returns (t: Token)
    requires i <= |s|
    ensures t == GetToken(s, i)
  {
    var j := SkipLoop(s, i);
    var q, kind := j, if j < |s| then s[j] else NUL;
    if j == |s| {
    } else if kind in "|();&<" {
      j := j + 1;
    } else if kind == '>' {
      j := j + 1;
      if j < |s| && s[j] == '>' {
        kind, j := APPEND, j + 1;
      }
    } else {
      kind := WORD;
      while j < |s| && !IsSpace(s[j]) && !IsSymbol(s[j])
        invariant q <= j <= |s| && WordEnd(s, q) == WordEnd(s, j)
      {
        j := j + 1;
      }
    }
    var eq := j;
    j := SkipLoop(s, j);
    t := Token(kind, Span(q, eq), j);
  }

  method SkipLoop(s: string, i: nat) returns (j: nat)
    requires i <= |s|
    ensures j == Skip(s, i)
  {
    j := i;
    while j < |s| && IsSpace(s[j])
      invariant i <= j <= |s| && Skip(s, i) == Skip(s, j)
    {
      j := j + 1;
    }
  }

  /** peek also moves *ps past the white space. */
  method PeekLoop(s: string, i: nat, toks: string) returns (found: bool, j: nat)
    requires i <= |s|
    ensures found == Peek(s, i, toks) && j == Skip(s, i)
  {
    j := SkipLoop(s, i);
    found := j < |s| && s[j] in toks;
  }

  /** Looking again from the skipped position changes nothing. */
  lemma SkipTwice(s: string, i: nat)
    requires i <= |s|
    ensures Skip(s, Skip(s, i)) == Skip(s, i) && GetToken(s, Skip(s, i)) == GetToken(s, i)
    ensures forall toks: string :: Peek(s, Skip(s, i), toks) == Peek(s, i, toks)
  {
  }

  method ParseRedirs(s: string, i: nat, rs0: seq<RedirSpec<Span>>) returns (r: Result<seq<RedirSpec<Span>>>)
    requires i <= |s|
    ensures r == Redirs(s, i, rs0)
  {
    var rs := rs0;
    var found, p := PeekLoop(s, i, "<>");
    SkipTwice(s, i);
    while found
      invariant p <= |s| && found == Peek(s, p, "<>") && Skip(s, p) == p && Redirs(s, p, rs) == Redirs(s, i, rs0)
      decreases |s| - p
    {
      var t := GetTokenLoop(s, p);
      var f := GetTokenLoop(s, t.pos);
      if f.kind != WORD {
        return Panic;
      }
      rs := rs + [Form(t.kind, f.span)];
      SkipTwice(s, f.pos);
      found, p := PeekLoop(s, f.pos, "<>");
      RedirsSkip(s, f.pos, rs);
    }
    return Ok(rs, p);
  }

  lemma RedirsSkip(s: string, i: nat, rs: seq<RedirSpec<Span>>)
    requires i <= |s|
    ensures Redirs(s, Skip(s, i), rs) == Redirs(s, i, rs)
  {
    SkipTwice(s, i);
  }

  /** argv fills up while the redirections already wrap the command; the tree is put together at the end. */
  method ParseExecLoop(s: string, i: nat) returns (r: Result<Cmd<Span>>)
    requires i <= |s|
    ensures r == ParseExec(s, i)
    decreases |s| - i, 2
  {
    hide Args, Redirs, GetToken, ParseLine, Skip;
    var found, p := PeekLoop(s, i, "(");
    SkipTwice(s, i);
    if found {
      r := ParseBlockLoop(s, i);
      return;
    }
    var rr := ParseRedirs(s, p, []);
    RedirsSkip(s, i, []);
    if rr.Panic? {
      return Panic;
    }
    r := ArgsLoop(s, rr.pos, rr.value);
  }

  /** The loop of parseexec. */
  method ArgsLoop(s: string, i: nat, rs0: seq<RedirSpec<Span>>) returns (r: Result<Cmd<Span>>)
    requires i <= |s|
    ensures r == Args(s, i, [], rs0)
  {
    hide Redirs, GetToken, Skip, Peek;
    var argv, rs := [], rs0;
    var stop, p := PeekLoop(s, i, "|)&;");
    SkipTwice(s, i);
    while !stop
      invariant p <= |s| && stop == Peek(s, p, "|)&;") && Skip(s, p) == p && Args(s, p, argv, rs) == Args(s, i, [], rs0)
      decreases |s| - p
    {
      var t := GetTokenLoop(s, p);
      if t.kind == NUL {
        return Ok(Wrap(Exec(argv), rs), t.pos);
      }
      if t.kind != WORD {
        return Panic;
      }
      argv := argv + [t.span];
      if |argv| >= MAXARGS {
        return Panic;
      }
      var rr := ParseRedirs(s, t.pos, rs);
      if rr.Panic? {
        return Panic;
      }
      rs := rr.value;
      SkipTwice(s, rr.pos);
      stop, p := PeekLoop(s, rr.pos, "|)&;");
    }
    return Ok(Wrap(Exec(argv), rs), p);
  }

  method ParseBlockLoop(s: string, i: nat) returns (r: Result<Cmd<Span>>)
    requires i <= |s| && Peek(s, i, "(")
    ensures r == ParseBlock(s, i)
    decreases |s| - i, 1
  {
    hide Redirs, GetToken, ParseLine, Skip, Peek;
    PeekMoves(s, i, "(");
    var t := GetTokenLoop(s, i);
    var line := ParseLineLoop(s, t.pos);
    if line.Panic? {
      return Panic;
    }
    var found, _ := PeekLoop(s, line.pos, ")");
    if !found {
      return Panic;
    }
    t := GetTokenLoop(s, line.pos);
    var rs := ParseRedirs(s, t.pos, []);
    if rs.Panic? {
      return Panic;
    }
    return Ok(Wrap(line.value, rs.value), rs.pos);
  }

  method ParsePipeLoop(s: string, i: nat) returns (r: Result<Cmd<Span>>)
    requires i <= |s|
    ensures r == ParsePipe(s, i)
    decreases |s| - i, 3
  {
    hide GetToken, ParseExec, Skip, Peek;
    r := ParseExecLoop(s, i);
    if r.Panic? {
      return;
    }
    var found, p := PeekLoop(s, r.pos, "|");
    if !found {
      return Ok(r.value, p);
    }
    PeekMoves(s, r.pos, "|");
    var t := GetTokenLoop(s, r.pos);
    var right := ParsePipeLoop(s, t.pos);
    if right.Panic? {
      return Panic;
    }
    return Ok(PipeCmd(r.value, right.value), right.pos);
  }

  method ParseLineLoop(s: string, i: nat) returns (r: Result<Cmd<Span>>)
    requires i <= |s|
    ensures r == ParseLine(s, i)
    decreases |s| - i, 5
  {
    hide GetToken, ParsePipe, Skip, Peek;
    r := ParsePipeLoop(s, i);
    if r.Panic? {
      return;
    }
    var cmd, p := r.value, r.pos;
    ghost var whole := LineRest(s, p, cmd);
    var found, q := PeekLoop(s, p, "&");
    while found
      invariant i <= p <= |s| && found == Peek(s, p, "&") && LineRest(s, p, cmd) == whole
      decreases |s| - p
    {
      var t := GetTokenLoop(s, p);
      PeekMoves(s, p, "&");
      cmd, p := Back(cmd), t.pos;
      found, q := PeekLoop(s, p, "&");
    }
    var more;
    more, q := PeekLoop(s, p, ";");
    if !more {
      return Ok(cmd, q);
    }
    PeekMoves(s, p, ";");
    var t := GetTokenLoop(s, p);
    var right := ParseLineLoop(s, t.pos);
    if right.Panic? {
      return Panic;
    }
    return Ok(ListCmd(cmd, right.value), right.pos);
  }

  lemma PeekMoves(s: string, i: nat, toks: string)
    requires i <= |s| && Peek(s, i, toks)
    ensures i < GetToken(s, i).pos
  {
  }

  /** nulterminate: writes a NUL after every word of the tree, in the line's own buffer. */
  method NulTerminate(buf: array<char>, cmd: Cmd<Span>)
    requires forall k :: k in Ends(cmd) ==> k < buf.Length
    modifies buf
    ensures forall k: nat :: k < buf.Length ==> buf[k] == if k in Ends(cmd) then NUL else old(buf[k])
    decreases cmd
  {
    match cmd {
      case Exec(argv) =>
        var i := 0;
        while i < |argv|
          invariant 0 <= i <= |argv|
          invariant forall k: nat :: k < buf.Length ==>
            buf[k] == if (exists j :: 0 <= j < i && argv[j].eq == k) then NUL else old(buf[k])
        {
          assert argv[i].eq in Ends(cmd);
          buf[argv[i].eq] := NUL;
          i := i + 1;
        }
      case Redir(c, file, _, _) =>
        assert Ends(cmd) == Ends(c) + {file.eq};
        NulTerminate(buf, c);
        buf[file.eq] := NUL;
      case PipeCmd(l, r) =>
        assert Ends(cmd) == Ends(l) + Ends(r);
        NulTerminate(buf, l);
        NulTerminate(buf, r);
      case ListCmd(l, r) =>
        assert Ends(cmd) == Ends(l) + Ends(r);
        NulTerminate(buf, l);
        NulTerminate(buf, r);
      case Back(c) =>
        assert Ends(cmd) == Ends(c);
        NulTerminate(buf, c);
    }
  }

  /** parsecmd: the tree, with every word NUL-terminated in the buffer; the words read as in the line. */
  method ParseCmdLine(buf: array<char>, ghost s: string) returns (r: Result<Cmd<Span>>)
    requires buf.Length == |s| + 1 && buf[..|s|] == s && buf[|s|] == NUL && NUL !in s
    modifies buf
    ensures r == ParseCmd(s)
    ensures r.Ok? ==> AllRead(s, buf[..], r.value)
  {
    hide ParseLine, AllRead, FromLine, Ends, Skip;
    var es := buf.Length - 1;
    var text := buf[..es];
    r := ParseLineLoop(text, 0);
    if r.Panic? {
      return;
    }
    var p := SkipLoop(text, r.pos);
    if p != es {
      return Panic;
    }
    r := Ok(r.value, es);
    LineFromLine(s, 0);
    forall k | k in Ends(r.value) ensures k <= |s| {
      EndsOutside(s, r.value, k);
    }
    NulTerminate(buf, r.value);
    assert Terminated(s, buf[..], Ends(r.value));
    NulTerminateKeepsTokens(s, buf[..]);
  }
}
