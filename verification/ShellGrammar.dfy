/**
 The shell's grammar, and that the parser decides it: a line is accepted exactly if its tokens are
 those of a phrase of the grammar, and the tree is the phrase's meaning.

 line := pipe "&"* [";" line];  pipe := exec ["|" pipe];
 exec := atom* | "(" line ")" file*;  atom := word | file;  file := ("<" | ">" | ">>") word
 */
module ShellGrammar {

  import opened ShellParser

  // ---------- tokens ----------

  /** A word, or a symbol; ">>" is the symbol APPEND. */
  datatype Tok = Name(w: Span) | Sym(c: char)

  function Tokens(s: string, i: nat): seq<Tok>
    requires i <= |s|
    decreases |s| - i
  {
    var t := GetToken(s, i);
    if t.kind == NUL then [] else [if t.kind == WORD then Name(t.span) else Sym(t.kind)] + Tokens(s, t.pos)
  }

  predicate Starts(ts: seq<Tok>, cs: string) {
    ts != [] && ts[0].Sym? && ts[0].c in cs
  }

  lemma {:induction false} SkipTwice(s: string, i: nat)
    requires i <= |s|
    ensures Skip(s, Skip(s, i)) == Skip(s, i)
    decreases |s| - i
  {
    if i < |s| && IsSpace(s[i]) {
      SkipTwice(s, i + 1);
    }
  }

  lemma SameToken(s: string, i: nat)
    requires i <= |s|
    ensures GetToken(s, Skip(s, i)) == GetToken(s, i)
  {
    SkipTwice(s, i);
    hide Skip;
  }

  lemma TokensSkip(s: string, i: nat)
    requires i <= |s|
    ensures Tokens(s, Skip(s, i)) == Tokens(s, i)
  {
    hide GetToken, Skip;
    SameToken(s, i);
  }

  /** The first token and the first character that is no white space. */
  lemma FirstToken(s: string, i: nat)
    requires i <= |s|
    ensures
      var j, ts := Skip(s, i), Tokens(s, i);
      && (ts == [] <==> j == |s|)
      && (j < |s| ==> (ts[0].Sym? <==> IsSymbol(s[j])))
      && (j < |s| && IsSymbol(s[j]) ==> ts[0].c == s[j] || (s[j] == '>' && ts[0].c == '+'))
  {
    hide Skip, WordEnd;
  }

  /** A peek for symbols looks at the first token. */
  lemma PeekIsStart(s: string, i: nat)
    requires i <= |s|
    ensures Peek(s, i, "|)&;") <==> Starts(Tokens(s, i), "|)&;")
    ensures Peek(s, i, "(") <==> Starts(Tokens(s, i), "(")
    ensures Peek(s, i, ")") <==> Starts(Tokens(s, i), ")")
    ensures Peek(s, i, "|") <==> Starts(Tokens(s, i), "|")
    ensures Peek(s, i, "&") <==> Starts(Tokens(s, i), "&")
    ensures Peek(s, i, ";") <==> Starts(Tokens(s, i), ";")
    ensures Peek(s, i, "<>") <==> Starts(Tokens(s, i), "<>+")
    ensures Tokens(s, i) == [] <==> Skip(s, i) == |s|
  {
    hide Skip, Tokens;
    FirstToken(s, i);
  }

  // ---------- phrases ----------

  datatype Atom = Arg(w: Span) | File(kind: char, w: Span)

  datatype ExecX = Simple(atoms: seq<Atom>) | Paren(line: LineX, files: seq<Atom>)

  datatype PipeX = One(exec: ExecX) | Piped(exec: ExecX, rest: PipeX)

  datatype LineX = Last(pipe: PipeX, amps: nat) | Then(pipe: PipeX, amps: nat, rest: LineX)

  predicate IsFile(a: Atom) {
    a.File? && a.kind in "<>+"
  }

  predicate AllFiles(files: seq<Atom>) {
    forall k :: 0 <= k < |files| ==> IsFile(files[k])
  }

  function WordOf(a: Atom): seq<Span> {
    if a.Arg? then [a.w] else []
  }

  function WordsOf(atoms: seq<Atom>): seq<Span> {
    if atoms == [] then [] else WordOf(atoms[0]) + WordsOf(atoms[1..])
  }

  function FileOf(a: Atom): seq<Atom> {
    if a.File? then [a] else []
  }

  function FilesOf(atoms: seq<Atom>): seq<Atom> {
    if atoms == [] then [] else FileOf(atoms[0]) + FilesOf(atoms[1..])
  }

  /** At most nine words in a simple command. */
  predicate ExecOk(x: ExecX) {
    match x
    case Simple(atoms) => |WordsOf(atoms)| <= 9 && forall k :: 0 <= k < |atoms| ==> atoms[k].Arg? || IsFile(atoms[k])
    case Paren(line, files) => LineOk(line) && AllFiles(files)
  }

  predicate PipeOk(x: PipeX) {
    ExecOk(x.exec) && (x.Piped? ==> PipeOk(x.rest))
  }

  predicate LineOk(x: LineX) {
    PipeOk(x.pipe) && (x.Then? ==> LineOk(x.rest))
  }

  // ---------- their tokens ----------

  function AtomTok(a: Atom): seq<Tok> {
    if a.Arg? then [Name(a.w)] else [Sym(a.kind), Name(a.w)]
  }

  function AtomToks(atoms: seq<Atom>): seq<Tok> {
    if atoms == [] then [] else AtomTok(atoms[0]) + AtomToks(atoms[1..])
  }

  function ExecToks(x: ExecX): seq<Tok> {
    match x
    case Simple(atoms) => AtomToks(atoms)
    case Paren(line, files) => [Sym('(')] + LineToks(line) + [Sym(')')] + AtomToks(files)
  }

  function PipeToks(x: PipeX): seq<Tok> {
    ExecToks(x.exec) + if x.Piped? then [Sym('|')] + PipeToks(x.rest) else []
  }

  function Amps(n: nat): seq<Tok> {
    if n == 0 then [] else [Sym('&')] + Amps(n - 1)
  }

  function LineToks(x: LineX): seq<Tok> {
    PipeToks(x.pipe) + Amps(x.amps) + if x.Then? then [Sym(';')] + LineToks(x.rest) else []
  }

  // ---------- their meaning ----------

  /** c with its input, or its output from the start or at the end, redirected; the first file is the inmost. */
  function Redirected(c: Cmd<Span>, files: seq<Atom>): Cmd<Span>
    decreases |files|
  {
    if files == [] then c
    else
      var f := files[0].w;
      var c' := if files[0].Arg? then c
                else if files[0].kind == '<' then Redir(c, f, 0, 0)
                else if files[0].kind == '>' then Redir(c, f, 0x601, 1)
                else Redir(c, f, 0x201, 1);
      Redirected(c', files[1..])
  }

  function Backed(c: Cmd<Span>, n: nat): Cmd<Span>
    decreases n
  {
    if n == 0 then c else Backed(Back(c), n - 1)
  }

  function ExecCmd(x: ExecX): Cmd<Span> {
    match x
    case Simple(atoms) => Redirected(Exec(WordsOf(atoms)), FilesOf(atoms))
    case Paren(line, files) => Redirected(LineCmd(line), files)
  }

  function PipeTree(x: PipeX): Cmd<Span> {
    if x.One? then ExecCmd(x.exec) else PipeCmd(ExecCmd(x.exec), PipeTree(x.rest))
  }

  function LineCmd(x: LineX): Cmd<Span> {
    var c := Backed(PipeTree(x.pipe), x.amps);
    if x.Last? then c else ListCmd(c, LineCmd(x.rest))
  }

  // ---------- what the parser accepts is a phrase ----------

  /** What a file of the grammar is to the parser. */
  function SpecOf(a: Atom): RedirSpec<Span> {
    if !a.File? || a.kind == '<' then RedirSpec(a.w, 0, 0)
    else if a.kind == '>' then RedirSpec(a.w, 0x601, 1)
    else RedirSpec(a.w, 0x201, 1)
  }

  function Specs(files: seq<Atom>): (rs: seq<RedirSpec<Span>>)
    ensures |rs| == |files| && forall k :: 0 <= k < |rs| ==> rs[k] == SpecOf(files[k])
  {
    seq(|files|, k requires 0 <= k < |files| => SpecOf(files[k]))
  }

  lemma {:induction false} WrapMore(cmd: Cmd<Span>, r: RedirSpec<Span>, rs: seq<RedirSpec<Span>>)
    ensures Wrap(cmd, [r] + rs) == Wrap(Redir(cmd, r.file, r.mode, r.fd), rs)
    decreases |rs|
  {
    var all := [r] + rs;
    if rs == [] {
      assert all[..0] == [] && Wrap(cmd, all[..0]) == cmd;
    } else {
      var n := |rs| - 1;
      assert all[..n + 1] == [r] + rs[..n];
      WrapMore(cmd, r, rs[..n]);
    }
  }

  lemma {:induction false} WrapIsRedirected(cmd: Cmd<Span>, files: seq<Atom>)
    requires AllFiles(files)
    ensures Wrap(cmd, Specs(files)) == Redirected(cmd, files)
    decreases |files|
  {
    if files != [] {
      var r := SpecOf(files[0]);
      assert IsFile(files[0]);
      assert Specs(files) == [r] + Specs(files[1..]);
      WrapMore(cmd, r, Specs(files[1..]));
      WrapIsRedirected(Redir(cmd, r.file, r.mode, r.fd), files[1..]);
    } else {
      assert Specs(files) == [];
    }
  }

  lemma {:induction false} AtomToksJoin(a: seq<Atom>, b: seq<Atom>)
    ensures AtomToks(a + b) == AtomToks(a) + AtomToks(b)
    ensures WordsOf(a + b) == WordsOf(a) + WordsOf(b) && FilesOf(a + b) == FilesOf(a) + FilesOf(b)
  {
    hide AtomTok, WordOf, FileOf, AtomToks, WordsOf, FilesOf;
    if a == [] {
      NoAtoms([], []);
      assert a + b == b;
    } else {
      var h, t := a[0], a[1..];
      AtomToksJoin(t, b);
      OneMoreAtom(h, t + b);
      OneMoreAtom(h, t);
      assert [h] + (t + b) == a + b && [h] + t == a;
      Assoc(AtomTok(h), AtomToks(t), AtomToks(b));
      Assoc(WordOf(h), WordsOf(t), WordsOf(b));
      Assoc(FileOf(h), FilesOf(t), FilesOf(b));
    }
  }

  lemma Assoc<T>(a: seq<T>, b: seq<T>, c: seq<T>)
    ensures a + (b + c) == a + b + c
  {
  }

  lemma OneMoreAtom(a: Atom, rest: seq<Atom>)
    ensures AtomToks([a] + rest) == AtomTok(a) + AtomToks(rest)
    ensures WordsOf([a] + rest) == WordOf(a) + WordsOf(rest) && FilesOf([a] + rest) == FileOf(a) + FilesOf(rest)
  {
    hide AtomTok, WordOf, FileOf;
    assert ([a] + rest)[1..] == rest;
  }

  lemma {:induction false} FilesAreFiles(files: seq<Atom>)
    requires AllFiles(files)
    ensures WordsOf(files) == [] && FilesOf(files) == files
  {
    if files != [] {
      assert IsFile(files[0]);
      FilesAreFiles(files[1..]);
      assert files == [files[0]] + files[1..];
    }
  }

  lemma FormIsSpec(kind: char, w: Span)
    requires kind in "<>+"
    ensures Form(kind, w) == SpecOf(File(kind, w)) && IsFile(File(kind, w))
  {
  }

  /** A redirection of the line is a file of the grammar. */
  lemma FileTokens(s: string, i: nat, a: Atom)
    requires i <= |s| && GetToken(s, i).kind in "<>+" && GetToken(s, GetToken(s, i).pos).kind == WORD
    requires a == File(GetToken(s, i).kind, GetToken(s, GetToken(s, i).pos).span)
    ensures Tokens(s, i) == [Sym(a.kind), Name(a.w)] + Tokens(s, GetToken(s, GetToken(s, i).pos).pos)
  {
    hide GetToken;
    var f := GetToken(s, GetToken(s, i).pos);
    assert Tokens(s, GetToken(s, i).pos) == [Name(f.span)] + Tokens(s, f.pos);
  }

  lemma {:induction false} RedirsSound(s: string, i: nat, rs: seq<RedirSpec<Span>>) returns (files: seq<Atom>)
    requires i <= |s| && Redirs(s, i, rs).Ok?
    ensures AllFiles(files) && Redirs(s, i, rs).value == rs + Specs(files)
    ensures Tokens(s, i) == AtomToks(files) + Tokens(s, Redirs(s, i, rs).pos)
    ensures !Starts(Tokens(s, Redirs(s, i, rs).pos), "<>+")
    decreases |s| - i
  {
    hide GetToken, Skip, Peek, Form, Tokens, Specs, AtomToks, IsFile, SpecOf;
    PeekIsStart(s, i);
    if !Peek(s, i, "<>") {
      files := [];
      TokensSkip(s, i);
      NoFiles(rs);
    } else {
      var t := GetToken(s, i);
      var f := GetToken(s, t.pos);
      var a := File(t.kind, f.span);
      KindOfFirst(s, i);
      FileTokens(s, i, a);
      FormIsSpec(t.kind, f.span);
      var rest := RedirsSound(s, f.pos, rs + [Form(t.kind, f.span)]);
      files := [a] + rest;
      MoreFiles(rs, a, rest);
    }
  }

  lemma KindOfFirst(s: string, i: nat)
    requires i <= |s| && Starts(Tokens(s, i), "<>+")
    ensures GetToken(s, i).kind in "<>+"
  {
    hide GetToken;
  }

  lemma NoFiles(rs: seq<RedirSpec<Span>>)
    ensures AllFiles([]) && AtomToks([]) == [] && rs + Specs([]) == rs
  {
  }

  lemma MoreFiles(rs: seq<RedirSpec<Span>>, a: Atom, rest: seq<Atom>)
    requires IsFile(a) && AllFiles(rest)
    ensures AllFiles([a] + rest) && AtomToks([a] + rest) == [Sym(a.kind), Name(a.w)] + AtomToks(rest)
    ensures rs + [SpecOf(a)] + Specs(rest) == rs + Specs([a] + rest)
  {
    hide SpecOf, AtomToks, Specs, WordsOf, FilesOf;
    OneMoreAtom(a, rest);
    assert Specs([a] + rest) == [SpecOf(a)] + Specs(rest);
  }

  predicate AtomsOk(atoms: seq<Atom>) {
    forall k :: 0 <= k < |atoms| ==> atoms[k].Arg? || IsFile(atoms[k])
  }

  /** A word, files and more atoms. */
  lemma MoreAtoms(argv: seq<Span>, rs: seq<RedirSpec<Span>>, w: Span, files: seq<Atom>, rest: seq<Atom>)
    requires AllFiles(files) && AtomsOk(rest)
    ensures
      var atoms := [Arg(w)] + files + rest;
      && AtomsOk(atoms) && AtomToks(atoms) == [Name(w)] + AtomToks(files) + AtomToks(rest)
      && argv + [w] + WordsOf(rest) == argv + WordsOf(atoms)
      && rs + Specs(files) + Specs(FilesOf(rest)) == rs + Specs(FilesOf(atoms))
  {
    hide IsFile, AtomToks, WordsOf, FilesOf, Specs, SpecOf;
    var atoms := [Arg(w)] + files + rest;
    assert atoms == [Arg(w)] + (files + rest);
    OneMoreAtom(Arg(w), files + rest);
    AtomToksJoin(files, rest);
    FilesAreFiles(files);
    assert WordsOf(atoms) == [w] + WordsOf(rest);
    assert Specs(files + FilesOf(rest)) == Specs(files) + Specs(FilesOf(rest));
  }

  lemma NoAtoms(argv: seq<Span>, rs: seq<RedirSpec<Span>>)
    ensures AtomsOk([]) && AtomToks([]) == [] && WordsOf([]) == [] && FilesOf([]) == []
    ensures argv + WordsOf([]) == argv && rs + Specs(FilesOf([])) == rs
  {
  }

  lemma NoMoreTokens(s: string, i: nat)
    requires i <= |s| && GetToken(s, i).kind == NUL
    ensures Tokens(s, i) == [] && Tokens(s, GetToken(s, i).pos) == []
  {
    TokensSkip(s, i);
  }

  lemma {:induction false} ArgsSound(s: string, i: nat, argv: seq<Span>, rs: seq<RedirSpec<Span>>)
    returns (atoms: seq<Atom>)
    requires i <= |s| && Args(s, i, argv, rs).Ok? && |argv| <= 9
    ensures AtomsOk(atoms) && |argv + WordsOf(atoms)| <= 9
    ensures Args(s, i, argv, rs).value == Wrap(Exec(argv + WordsOf(atoms)), rs + Specs(FilesOf(atoms)))
    ensures
      var ts := Tokens(s, Args(s, i, argv, rs).pos);
      Tokens(s, i) == AtomToks(atoms) + ts && (ts == [] || Starts(ts, "|)&;"))
    decreases |s| - i
  {
    hide GetToken, Skip, Peek, Redirs, Tokens, Specs, AtomToks, Wrap, AtomsOk, WordsOf, FilesOf;
    PeekIsStart(s, i);
    NoAtoms(argv, rs);
    atoms := [];
    if Peek(s, i, "|)&;") {
      TokensSkip(s, i);
    } else {
      var t := GetToken(s, i);
      if t.kind == NUL {
        NoMoreTokens(s, i);
      } else {
        var r := Redirs(s, t.pos, rs);
        var files := RedirsSound(s, t.pos, rs);
        var rest := ArgsSound(s, r.pos, argv + [t.span], r.value);
        MoreAtoms(argv, rs, t.span, files, rest);
        WordTokens(s, i);
        atoms := [Arg(t.span)] + files + rest;
      }
    }
  }

  lemma WordTokens(s: string, i: nat)
    requires i <= |s| && GetToken(s, i).kind == WORD
    ensures Tokens(s, i) == [Name(GetToken(s, i).span)] + Tokens(s, GetToken(s, i).pos)
  {
    hide GetToken;
  }

  lemma SymTokens(s: string, i: nat, c: char)
    requires i <= |s| && Starts(Tokens(s, i), [c])
    ensures Tokens(s, i) == [Sym(c)] + Tokens(s, GetToken(s, i).pos)
  {
    hide GetToken;
  }

  lemma {:induction false} ExecSound(s: string, i: nat) returns (x: ExecX)
    requires i <= |s| && ParseExec(s, i).Ok?
    ensures ExecOk(x) && ParseExec(s, i).value == ExecCmd(x)
    ensures Tokens(s, i) == ExecToks(x) + Tokens(s, ParseExec(s, i).pos)
    decreases |s| - i, 2
  {
    hide GetToken, Skip, Peek, Redirs, Args, ParseLine, Tokens, Specs, AtomToks, Wrap, WordsOf, FilesOf;
    PeekIsStart(s, i);
    if Peek(s, i, "(") {
      x := BlockSound(s, i);
    } else {
      var r := Redirs(s, i, []);
      var files := RedirsSound(s, i, []);
      var rest := ArgsSound(s, r.pos, [], r.value);
      x := Simple(files + rest);
      SimpleIs(files, rest);
    }
  }

  lemma SimpleIs(files: seq<Atom>, rest: seq<Atom>)
    requires AllFiles(files) && AtomsOk(rest) && |[] + WordsOf(rest)| <= 9
    ensures ExecOk(Simple(files + rest)) && ExecToks(Simple(files + rest)) == AtomToks(files) + AtomToks(rest)
    ensures Wrap(Exec([] + WordsOf(rest)), [] + Specs(files) + Specs(FilesOf(rest))) == ExecCmd(Simple(files + rest))
  {
    hide IsFile, Redirected, Wrap, AtomToks, WordsOf, FilesOf, Specs, SpecOf;
    AtomToksJoin(files, rest);
    FilesAreFiles(files);
    var all := FilesOf(files + rest);
    FilesOfAreFiles(files + rest);
    assert [] + Specs(files) + Specs(FilesOf(rest)) == Specs(all);
    assert [] + WordsOf(rest) == WordsOf(rest) == WordsOf(files + rest);
    WrapIsRedirected(Exec(WordsOf(rest)), all);
  }

  lemma {:induction false} FilesOfAreFiles(atoms: seq<Atom>)
    requires AtomsOk(atoms)
    ensures AllFiles(FilesOf(atoms))
  {
    if atoms != [] {
      FilesOfAreFiles(atoms[1..]);
    }
  }

  lemma {:induction false} BlockSound(s: string, i: nat) returns (x: ExecX)
    requires i <= |s| && Peek(s, i, "(") && ParseBlock(s, i).Ok?
    ensures ExecOk(x) && ParseBlock(s, i).value == ExecCmd(x)
    ensures Tokens(s, i) == ExecToks(x) + Tokens(s, ParseBlock(s, i).pos)
    decreases |s| - i, 1
  {
    hide GetToken, Skip, Peek, Redirs, ParseLine, Tokens, Specs, AtomToks, Wrap;
    PeekIsStart(s, i);
    SymTokens(s, i, '(');
    var r := ParseLine(s, GetToken(s, i).pos);
    var line := LineSound(s, GetToken(s, i).pos);
    PeekIsStart(s, r.pos);
    SymTokens(s, r.pos, ')');
    var files := RedirsSound(s, GetToken(s, r.pos).pos, []);
    assert [] + Specs(files) == Specs(files);
    WrapIsRedirected(r.value, files);
    x := Paren(line, files);
  }

  lemma {:induction false} PipeSound(s: string, i: nat) returns (x: PipeX)
    requires i <= |s| && ParsePipe(s, i).Ok?
    ensures PipeOk(x) && ParsePipe(s, i).value == PipeTree(x)
    ensures Tokens(s, i) == PipeToks(x) + Tokens(s, ParsePipe(s, i).pos)
    decreases |s| - i, 3
  {
    hide GetToken, Skip, Peek, ParseExec, Tokens, ExecToks, ExecCmd;
    var r := ParseExec(s, i);
    var e := ExecSound(s, i);
    PeekIsStart(s, r.pos);
    if Peek(s, r.pos, "|") {
      SymTokens(s, r.pos, '|');
      var rest := PipeSound(s, GetToken(s, r.pos).pos);
      x := Piped(e, rest);
    } else {
      TokensSkip(s, r.pos);
      x := One(e);
    }
  }

  lemma {:induction false} LineSound(s: string, i: nat) returns (x: LineX)
    requires i <= |s| && ParseLine(s, i).Ok?
    ensures LineOk(x) && ParseLine(s, i).value == LineCmd(x)
    ensures Tokens(s, i) == LineToks(x) + Tokens(s, ParseLine(s, i).pos)
    decreases |s| - i, 5
  {
    hide GetToken, Skip, Peek, ParsePipe, LineRest, Tokens, PipeToks, PipeTree;
    var r := ParsePipe(s, i);
    var pipe := PipeSound(s, i);
    x := RestSound(s, r.pos, r.value, pipe, 0);
  }

  /** After the pipe and n ampersands. */
  lemma {:induction false} RestSound(s: string, i: nat, cmd: Cmd<Span>, pipe: PipeX, n: nat) returns (x: LineX)
    requires i <= |s| && LineRest(s, i, cmd).Ok? && PipeOk(pipe) && cmd == Backed(PipeTree(pipe), n)
    ensures LineOk(x) && x.pipe == pipe && x.amps >= n && LineRest(s, i, cmd).value == LineCmd(x)
    ensures
      Tokens(s, i) == Amps(x.amps - n) + (if x.Then? then [Sym(';')] + LineToks(x.rest) else [])
        + Tokens(s, LineRest(s, i, cmd).pos)
    decreases |s| - i, 4
  {
    hide GetToken, Skip, Peek, ParseLine, Tokens, PipeToks, PipeTree, PipeOk;
    PeekIsStart(s, i);
    if Peek(s, i, "&") {
      SymTokens(s, i, '&');
      BackedMore(PipeTree(pipe), n);
      x := RestSound(s, GetToken(s, i).pos, Back(cmd), pipe, n + 1);
    } else if Peek(s, i, ";") {
      SymTokens(s, i, ';');
      var rest := LineSound(s, GetToken(s, i).pos);
      x := Then(pipe, n, rest);
    } else {
      TokensSkip(s, i);
      x := Last(pipe, n);
    }
  }

  lemma {:induction false} BackedMore(c: Cmd<Span>, n: nat)
    ensures Back(Backed(c, n)) == Backed(c, n + 1)
    decreases n
  {
    if n > 0 {
      BackedMore(Back(c), n - 1);
    }
  }

  // ---------- every phrase is accepted, with its meaning ----------

  /** What comes first in the tokens is the token at i. */
  lemma HeadToken(s: string, i: nat, head: Tok, tail: seq<Tok>)
    requires i <= |s| && Tokens(s, i) == [head] + tail
    ensures GetToken(s, i).kind == (if head.Name? then WORD else head.c) != NUL && Tokens(s, GetToken(s, i).pos) == tail
    ensures head.Name? ==> GetToken(s, i).span == head.w
  {
    hide GetToken;
    var t := GetToken(s, i);
    TokenText(s, i);
    assert Tokens(s, i)[1..] == Tokens(s, t.pos) && ([head] + tail)[1..] == tail;
  }

  lemma {:induction false} RedirsComplete(s: string, i: nat, rs: seq<RedirSpec<Span>>, files: seq<Atom>,
                                          rest: seq<Tok>)
    requires i <= |s| && AllFiles(files) && Tokens(s, i) == AtomToks(files) + rest && !Starts(rest, "<>+")
    ensures
      var r := Redirs(s, i, rs);
      r.Ok? && r.value == rs + Specs(files) && Tokens(s, r.pos) == rest
    decreases |files|
  {
    hide GetToken, Skip, Peek, Form, Tokens, Specs, SpecOf;
    PeekIsStart(s, i);
    if files == [] {
      TokensSkip(s, i);
      NoFiles(rs);
      assert AtomToks(files) + rest == rest;
    } else {
      var a, more := files[0], files[1..];
      assert files == [a] + more && IsFile(a);
      MoreFiles(rs, a, more);
      assert Tokens(s, i) == [Sym(a.kind)] + ([Name(a.w)] + (AtomToks(more) + rest));
      HeadToken(s, i, Sym(a.kind), [Name(a.w)] + (AtomToks(more) + rest));
      HeadToken(s, GetToken(s, i).pos, Name(a.w), AtomToks(more) + rest);
      FormIsSpec(a.kind, a.w);
      RedirsComplete(s, GetToken(s, GetToken(s, i).pos).pos, rs + [SpecOf(a)], more, rest);
    }
  }

  /** How many files come before the first word. */
  function Lead(atoms: seq<Atom>): (n: nat)
    ensures n <= |atoms| && (n < |atoms| ==> atoms[n].Arg?) && forall k :: 0 <= k < n ==> atoms[k].File?
  {
    if atoms == [] || atoms[0].Arg? then 0 else 1 + Lead(atoms[1..])
  }

  predicate EndsSimple(rest: seq<Tok>) {
    rest == [] || Starts(rest, "|)&;")
  }

  lemma LeadingFiles(atoms: seq<Atom>, rest: seq<Tok>)
    requires AtomsOk(atoms) && EndsSimple(rest)
    ensures
      var n := Lead(atoms);
      && AllFiles(atoms[..n]) && AtomsOk(atoms[n..]) && atoms == atoms[..n] + atoms[n..]
      && AtomToks(atoms) == AtomToks(atoms[..n]) + AtomToks(atoms[n..])
      && !Starts(AtomToks(atoms[n..]) + rest, "<>+") && !Starts(AtomToks(atoms[n..]) + rest, "(")
  {
    var n := Lead(atoms);
    assert atoms == atoms[..n] + atoms[n..];
    AtomToksJoin(atoms[..n], atoms[n..]);
  }

  lemma {:induction false} ArgsComplete(s: string, i: nat, argv: seq<Span>, rs: seq<RedirSpec<Span>>, atoms: seq<Atom>,
                                        rest: seq<Tok>)
    requires i <= |s| && AtomsOk(atoms) && (atoms == [] || atoms[0].Arg?) && |argv + WordsOf(atoms)| <= 9
    requires Tokens(s, i) == AtomToks(atoms) + rest && EndsSimple(rest)
    ensures
      var r := Args(s, i, argv, rs);
      && r.Ok? && r.value == Wrap(Exec(argv + WordsOf(atoms)), rs + Specs(FilesOf(atoms))) && Tokens(s, r.pos) == rest
    decreases |atoms|
  {
    hide GetToken, Skip, Peek, Redirs, Tokens, Specs, Wrap, WordsOf, FilesOf, AtomsOk, Lead;
    PeekIsStart(s, i);
    if atoms == [] {
      NoAtoms(argv, rs);
      assert AtomToks(atoms) + rest == rest;
      TokensSkip(s, i);
      if rest == [] {
        LastToken(s, i);
        NoMoreTokens(s, i);
      }
    } else {
      var w, n := atoms[0].w, Lead(atoms[1..]);
      var files, tail := atoms[1..][..n], atoms[1..][n..];
      AtomsTail(atoms);
      LeadingFiles(atoms[1..], rest);
      assert atoms == [Arg(w)] + files + tail;
      MoreAtoms(argv, rs, w, files, tail);
      assert Tokens(s, i) == [Name(w)] + (AtomToks(files) + (AtomToks(tail) + rest));
      HeadToken(s, i, Name(w), AtomToks(files) + (AtomToks(tail) + rest));
      RedirsComplete(s, GetToken(s, i).pos, rs, files, AtomToks(tail) + rest);
      ArgsComplete(s, Redirs(s, GetToken(s, i).pos, rs).pos, argv + [w], rs + Specs(files), tail, rest);
    }
  }

  lemma AtomsTail(atoms: seq<Atom>)
    requires AtomsOk(atoms) && atoms != []
    ensures AtomsOk(atoms[1..])
  {
  }

  lemma LastToken(s: string, i: nat)
    requires i <= |s| && Tokens(s, i) == []
    ensures GetToken(s, i).kind == NUL
  {
    hide GetToken;
  }

  lemma {:induction false} ExecComplete(s: string, i: nat, x: ExecX, rest: seq<Tok>)
    requires i <= |s| && ExecOk(x) && Tokens(s, i) == ExecToks(x) + rest && EndsSimple(rest)
    ensures
      var r := ParseExec(s, i);
      r.Ok? && r.value == ExecCmd(x) && Tokens(s, r.pos) == rest
    decreases x, 1
  {
    hide GetToken, Skip, Peek, Redirs, Args, ParseBlock, Tokens, Specs, Wrap, WordsOf, FilesOf, AtomToks;
    PeekIsStart(s, i);
    match x
    case Paren(line, files) => BlockComplete(s, i, line, files, rest);
    case Simple(atoms) => SimpleComplete(s, i, atoms, rest);
  }

  lemma SimpleComplete(s: string, i: nat, atoms: seq<Atom>, rest: seq<Tok>)
    requires i <= |s| && ExecOk(Simple(atoms)) && Tokens(s, i) == AtomToks(atoms) + rest && EndsSimple(rest)
    ensures
      var r := ParseExec(s, i);
      r.Ok? && r.value == ExecCmd(Simple(atoms)) && Tokens(s, r.pos) == rest
  {
    hide GetToken, Skip, Peek, Redirs, Args, ParseBlock, Tokens, Specs, Wrap, FilesOf, Lead, AtomToks;
    PeekIsStart(s, i);
    var n := Lead(atoms);
    var files, tail := atoms[..n], atoms[n..];
    LeadingFiles(atoms, rest);
    NoParen(files, AtomToks(tail) + rest);
    assert Tokens(s, i) == AtomToks(files) + (AtomToks(tail) + rest);
    RedirsComplete(s, i, [], files, AtomToks(tail) + rest);
    AtomToksJoin(files, tail);
    FilesAreFiles(files);
    assert [] + WordsOf(tail) == WordsOf(tail);
    ArgsComplete(s, Redirs(s, i, []).pos, [], [] + Specs(files), tail, rest);
    SimpleIs(files, tail);
  }

  lemma NoParen(files: seq<Atom>, rest: seq<Tok>)
    requires AllFiles(files) && !Starts(rest, "(")
    ensures !Starts(AtomToks(files) + rest, "(")
  {
  }

  lemma {:induction false} BlockComplete(s: string, i: nat, line: LineX, files: seq<Atom>, rest: seq<Tok>)
    requires i <= |s| && LineOk(line) && AllFiles(files) && EndsSimple(rest)
    requires Tokens(s, i) == [Sym('(')] + LineToks(line) + [Sym(')')] + AtomToks(files) + rest
    ensures
      var r := ParseExec(s, i);
      r.Ok? && r.value == Redirected(LineCmd(line), files) && Tokens(s, r.pos) == rest
    decreases line, 6
  {
    hide GetToken, Skip, Peek, Redirs, Args, ParseLine, Tokens, Specs, Wrap, AtomToks;
    PeekIsStart(s, i);
    var after := [Sym(')')] + (AtomToks(files) + rest);
    assert Tokens(s, i) == [Sym('(')] + (LineToks(line) + after);
    HeadToken(s, i, Sym('('), LineToks(line) + after);
    LineComplete(s, GetToken(s, i).pos, line, after);
    var r := ParseLine(s, GetToken(s, i).pos);
    PeekIsStart(s, r.pos);
    HeadToken(s, r.pos, Sym(')'), AtomToks(files) + rest);
    RedirsComplete(s, GetToken(s, r.pos).pos, [], files, rest);
    assert [] + Specs(files) == Specs(files);
    WrapIsRedirected(r.value, files);
  }

  lemma {:induction false} PipeComplete(s: string, i: nat, x: PipeX, rest: seq<Tok>)
    requires i <= |s| && PipeOk(x) && Tokens(s, i) == PipeToks(x) + rest && (rest == [] || Starts(rest, ")&;"))
    ensures
      var r := ParsePipe(s, i);
      r.Ok? && r.value == PipeTree(x) && Tokens(s, r.pos) == rest
    decreases x, 2
  {
    hide GetToken, Skip, Peek, ParseExec, Tokens, ExecToks, ExecCmd, ExecOk;
    var after := if x.Piped? then [Sym('|')] + (PipeToks(x.rest) + rest) else rest;
    assert Tokens(s, i) == ExecToks(x.exec) + after;
    ExecComplete(s, i, x.exec, after);
    var r := ParseExec(s, i);
    PeekIsStart(s, r.pos);
    if x.Piped? {
      HeadToken(s, r.pos, Sym('|'), PipeToks(x.rest) + rest);
      PipeComplete(s, GetToken(s, r.pos).pos, x.rest, rest);
    } else {
      TokensSkip(s, r.pos);
    }
  }

  lemma {:induction false} LineComplete(s: string, i: nat, x: LineX, rest: seq<Tok>)
    requires i <= |s| && LineOk(x) && Tokens(s, i) == LineToks(x) + rest && (rest == [] || Starts(rest, ")"))
    ensures
      var r := ParseLine(s, i);
      r.Ok? && r.value == LineCmd(x) && Tokens(s, r.pos) == rest
    decreases x, 5
  {
    hide GetToken, Skip, Peek, ParsePipe, LineRest, Tokens, PipeToks, PipeTree, PipeOk;
    var after := Amps(x.amps) + (if x.Then? then [Sym(';')] + LineToks(x.rest) else []) + rest;
    assert Tokens(s, i) == PipeToks(x.pipe) + after;
    PipeComplete(s, i, x.pipe, after);
    RestComplete(s, ParsePipe(s, i).pos, PipeTree(x.pipe), x, x.amps, rest);
  }

  /** With n ampersands to come. */
  lemma {:induction false} RestComplete(s: string, i: nat, cmd: Cmd<Span>, x: LineX, n: nat, rest: seq<Tok>)
    requires i <= |s| && LineOk(x) && (rest == [] || Starts(rest, ")"))
    requires Tokens(s, i) == Amps(n) + (if x.Then? then [Sym(';')] + LineToks(x.rest) else []) + rest
    ensures
      var r := LineRest(s, i, cmd);
      && r.Ok? && r.value == (if x.Then? then ListCmd(Backed(cmd, n), LineCmd(x.rest)) else Backed(cmd, n))
      && Tokens(s, r.pos) == rest
    decreases x, 4, n
  {
    hide GetToken, Skip, Peek, ParseLine, Tokens;
    PeekIsStart(s, i);
    if n > 0 {
      var after := Amps(n - 1) + (if x.Then? then [Sym(';')] + LineToks(x.rest) else []) + rest;
      assert Tokens(s, i) == [Sym('&')] + after;
      HeadToken(s, i, Sym('&'), after);
      RestComplete(s, GetToken(s, i).pos, Back(cmd), x, n - 1, rest);
    } else if x.Then? {
      assert Tokens(s, i) == [Sym(';')] + (LineToks(x.rest) + rest);
      HeadToken(s, i, Sym(';'), LineToks(x.rest) + rest);
      LineComplete(s, GetToken(s, i).pos, x.rest, rest);
    } else {
      assert Tokens(s, i) == rest;
      TokensSkip(s, i);
    }
  }

  // ---------- the theorem ----------

  /**
   For every line: it is accepted exactly if its tokens are those of a line of the grammar, and then the
   tree is what that means, whichever phrase it is.
   */
  lemma ParserDecidesGrammar(s: string)
    ensures ParseCmd(s).Ok? <==> exists x :: LineOk(x) && LineToks(x) == Tokens(s, 0)
    ensures forall x :: LineOk(x) && LineToks(x) == Tokens(s, 0) ==> ParseCmd(s) == Ok(LineCmd(x), |s|)
  {
    hide ParseLine, Tokens, LineToks, LineOk, LineCmd, Skip;
    if ParseCmd(s).Ok? {
      var x := LineSound(s, 0);
      PeekIsStart(s, ParseLine(s, 0).pos);
      assert LineToks(x) + [] == LineToks(x);
    }
    forall x | LineOk(x) && LineToks(x) == Tokens(s, 0) ensures ParseCmd(s) == Ok(LineCmd(x), |s|) {
      assert LineToks(x) + [] == LineToks(x);
      LineComplete(s, 0, x, []);
      PeekIsStart(s, ParseLine(s, 0).pos);
    }
  }
}
