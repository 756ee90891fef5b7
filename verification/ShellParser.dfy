/**
 The shell's recursive-descent parser as functions of the line and a position in it. A panic is
 a result. Words are spans of the line, as the C code's pairs of pointers are; Text reads them.

 The line is a C string, so it holds no NUL; es is its length.
 */
module ShellParser {

  const MAXARGS := 10
  const O_RDONLY := 0
  const O_WRONLY := 1
  const O_CREATE := 0x200
  const O_TRUNC := 0x400

  const NUL := '\0'
  const WORD := 'a'    // the token kind of a word
  const APPEND := '+'  // the token kind of >>

  datatype Span = Span(q: nat, eq: nat)

  datatype Cmd<W> =
    | Exec(argv: seq<W>)
    | Redir(cmd: Cmd<W>, file: W, mode: int, fd: int)
    | PipeCmd(left: Cmd<W>, right: Cmd<W>)
    | ListCmd(left: Cmd<W>, right: Cmd<W>)
    | Back(cmd: Cmd<W>)

  datatype Result<T> = Ok(value: T, pos: nat) | Panic

  // ---------- tokens ----------

  predicate IsSpace(c: char) {
    c == ' ' || c == '\t' || c == '\r' || c == '\n' || c == 11 as char
  }

  predicate IsSymbol(c: char) {
    c in "<|>&;()"
  }

  predicate IsWordChar(c: char) {
    !IsSpace(c) && !IsSymbol(c)
  }

  function Skip(s: string, i: nat): (j: nat)
    requires i <= |s|
    ensures i <= j <= |s| && (j < |s| ==> !IsSpace(s[j])) && forall k :: i <= k < j ==> IsSpace(s[k])
    decreases |s| - i
  {
    if i < |s| && IsSpace(s[i]) then Skip(s, i + 1) else i
  }

  function WordEnd(s: string, i: nat): (j: nat)
    requires i <= |s|
    ensures i <= j <= |s| && (j < |s| ==> !IsWordChar(s[j])) && forall k :: i <= k < j ==> IsWordChar(s[k])
    decreases |s| - i
  {
    if i < |s| && IsWordChar(s[i]) then WordEnd(s, i + 1) else i
  }

  datatype Token = Token(kind: char, span: Span, pos: nat)

  /** The token at or after i, and where the next one may start. */
  function GetToken(s: string, i: nat): (t: Token)
    requires i <= |s|
    ensures i <= t.span.q <= t.span.eq <= t.pos <= |s|
    ensures if t.kind == NUL then t.span.q == |s| else t.span.q < t.span.eq
    ensures t.kind == WORD ==> IsWord(s, t.span)
  {
    var j := Skip(s, i);
    if j == |s| then Token(NUL, Span(j, j), j)
    else if s[j] in "|();&<" then Token(s[j], Span(j, j + 1), Skip(s, j + 1))
    else if s[j] == '>' then
      if j + 1 < |s| && s[j + 1] == '>' then Token(APPEND, Span(j, j + 2), Skip(s, j + 2))
      else Token('>', Span(j, j + 1), Skip(s, j + 1))
    else
      var e := WordEnd(s, j);
      Token(WORD, Span(j, e), Skip(s, e))
  }

  /** The text of every token, with nothing but white space around it: a symbol that is not cut short, or a word. */
  lemma TokenText(s: string, i: nat)
    requires i <= |s|
    ensures
      var t := GetToken(s, i);
      && (forall k :: i <= k < t.span.q || t.span.eq <= k < t.pos ==> IsSpace(s[k]))
      && (t.pos < |s| ==> !IsSpace(s[t.pos]))
      && (t.kind == NUL || t.kind == WORD || t.kind in "|();&<>+")
      && (t.kind == NUL ==> t.span.q == |s|)
      && (t.kind == WORD ==> IsWord(s, t.span))
      && (t.kind in "|();&<>+" ==> s[t.span.q..t.span.eq] == if t.kind == '+' then ">>" else [t.kind])
      && (t.kind == '>' && t.span.eq < |s| ==> s[t.span.eq] != '>')
  {
  }

  /** A maximal run of word characters. */
  predicate IsWord(s: string, w: Span) {
    w.q < w.eq <= |s| && (forall k :: w.q <= k < w.eq ==> IsWordChar(s[k])) && (w.eq < |s| ==> !IsWordChar(s[w.eq]))
  }

  /** Whether the next character after white space is one of toks. */
  predicate Peek(s: string, i: nat, toks: string)
    requires i <= |s|
  {
    var j := Skip(s, i);
    j < |s| && s[j] in toks
  }

  // ---------- the grammar ----------

  datatype RedirSpec<W> = RedirSpec(file: W, mode: int, fd: int)

  function Form(kind: char, file: Span): RedirSpec<Span> {
    if kind == '<' then RedirSpec(file, O_RDONLY, 0)
    else if kind == '>' then RedirSpec(file, O_WRONLY + O_CREATE + O_TRUNC, 1)
    else RedirSpec(file, O_WRONLY + O_CREATE, 1)
  }

  /** Each redirection wraps the command so far. */
  function Wrap<W>(cmd: Cmd<W>, rs: seq<RedirSpec<W>>): Cmd<W> {
    if rs == [] then cmd
    else
      var r := rs[|rs| - 1];
      Redir(Wrap(cmd, rs[..|rs| - 1]), r.file, r.mode, r.fd)
  }

  /** parseredirs: the redirections from i on, after those of rs. */
  function Redirs(s: string, i: nat, rs: seq<RedirSpec<Span>>): (r: Result<seq<RedirSpec<Span>>>)
    requires i <= |s|
    ensures r.Ok? ==> i <= r.pos <= |s|
    decreases |s| - i
  {
    if !Peek(s, i, "<>") then Ok(rs, Skip(s, i))
    else
      var t := GetToken(s, i);
      var f := GetToken(s, t.pos);
      if f.kind != WORD then Panic else Redirs(s, f.pos, rs + [Form(t.kind, f.span)])
  }

  /** parseexec's loop over words and redirections. */
  function Args(s: string, i: nat, argv: seq<Span>, rs: seq<RedirSpec<Span>>): (r: Result<Cmd<Span>>)
    requires i <= |s|
    ensures r.Ok? ==> i <= r.pos <= |s|
    decreases |s| - i
  {
    if Peek(s, i, "|)&;") then Ok(Wrap(Exec(argv), rs), Skip(s, i))
    else
      var t := GetToken(s, i);
      if t.kind == NUL then Ok(Wrap(Exec(argv), rs), t.pos)
      else if t.kind != WORD || |argv| + 1 >= MAXARGS then Panic
      else
        var r := Redirs(s, t.pos, rs);
        if r.Panic? then Panic else Args(s, r.pos, argv + [t.span], r.value)
  }

  function ParseExec(s: string, i: nat): (r: Result<Cmd<Span>>)
    requires i <= |s|
    ensures r.Ok? ==> i <= r.pos <= |s|
    decreases |s| - i, 2
  {
    if Peek(s, i, "(") then ParseBlock(s, i)
    else
      var r := Redirs(s, i, []);
      if r.Panic? then Panic else Args(s, r.pos, [], r.value)
  }

  /** parseblock, at a "(". */
  function ParseBlock(s: string, i: nat): (r: Result<Cmd<Span>>)
    requires i <= |s| && Peek(s, i, "(")
    ensures r.Ok? ==> i <= r.pos <= |s|
    decreases |s| - i, 1
  {
    var r := ParseLine(s, GetToken(s, i).pos);
    if r.Panic? || !Peek(s, r.pos, ")") then Panic
    else
      var rs := Redirs(s, GetToken(s, r.pos).pos, []);
      if rs.Panic? then Panic else Ok(Wrap(r.value, rs.value), rs.pos)
  }

  function ParsePipe(s: string, i: nat): (r: Result<Cmd<Span>>)
    requires i <= |s|
    ensures r.Ok? ==> i <= r.pos <= |s|
    decreases |s| - i, 3
  {
    var r := ParseExec(s, i);
    if r.Panic? then Panic
    else if !Peek(s, r.pos, "|") then Ok(r.value, Skip(s, r.pos))
    else
      var right := ParsePipe(s, GetToken(s, r.pos).pos);
      if right.Panic? then Panic else Ok(PipeCmd(r.value, right.value), right.pos)
  }

  function ParseLine(s: string, i: nat): (r: Result<Cmd<Span>>)
    requires i <= |s|
    ensures r.Ok? ==> i <= r.pos <= |s|
    decreases |s| - i, 5
  {
    var r := ParsePipe(s, i);
    if r.Panic? then Panic else LineRest(s, r.pos, r.value)
  }

  /** What follows a pipeline in parseline: any number of "&", then perhaps ";" and the rest. */
  function LineRest(s: string, i: nat, cmd: Cmd<Span>): (r: Result<Cmd<Span>>)
    requires i <= |s|
    ensures r.Ok? ==> i <= r.pos <= |s|
    decreases |s| - i, 4
  {
    if Peek(s, i, "&") then LineRest(s, GetToken(s, i).pos, Back(cmd))
    else if Peek(s, i, ";") then
      var r := ParseLine(s, GetToken(s, i).pos);
      if r.Panic? then Panic else Ok(ListCmd(cmd, r.value), r.pos)
    else Ok(cmd, Skip(s, i))
  }

  /** parsecmd without nulterminate. */
  function ParseCmd(s: string): Result<Cmd<Span>> {
    var r := ParseLine(s, 0);
    if r.Panic? || Skip(s, r.pos) != |s| then Panic else Ok(r.value, |s|)
  }

  // ---------- reading a tree, and printing one ----------

  function Word(s: string, w: Span): string {
    if w.q <= w.eq <= |s| then s[w.q..w.eq] else ""
  }

  function Words(s: string, ws: seq<Span>): seq<string> {
    seq(|ws|, i requires 0 <= i < |ws| => Word(s, ws[i]))
  }

  function Text(s: string, cmd: Cmd<Span>): Cmd<string> {
    match cmd
    case Exec(argv) => Exec(Words(s, argv))
    case Redir(c, file, mode, fd) => Redir(Text(s, c), Word(s, file), mode, fd)
    case PipeCmd(l, r) => PipeCmd(Text(s, l), Text(s, r))
    case ListCmd(l, r) => ListCmd(Text(s, l), Text(s, r))
    case Back(c) => Back(Text(s, c))
  }

  predicate WordText(w: string) {
    |w| > 0 && forall k :: 0 <= k < |w| ==> IsWordChar(w[k])
  }

  predicate IsForm(mode: int, fd: int) {
    || (mode == O_RDONLY && fd == 0)
    || (mode == O_WRONLY + O_CREATE + O_TRUNC && fd == 1)
    || (mode == O_WRONLY + O_CREATE && fd == 1)
  }

  /** The command trees that a line can denote. */
  predicate Printable(c: Cmd<string>) {
    match c
    case Exec(argv) => |argv| < MAXARGS && forall i :: 0 <= i < |argv| ==> WordText(argv[i])
    case Redir(d, file, mode, fd) => Printable(d) && WordText(file) && IsForm(mode, fd)
    case PipeCmd(l, r) => Printable(l) && Printable(r)
    case ListCmd(l, r) => Printable(l) && Printable(r)
    case Back(d) => Printable(d)
  }

  function Operator(mode: int): string {
    if mode == O_RDONLY then "<" else if mode == O_WRONLY + O_CREATE then ">>" else ">"
  }

  function PrintWords(ws: seq<string>): string {
    if ws == [] then "" else ws[0] + " " + PrintWords(ws[1..])
  }

  function Block(text: string): (b: string)
    ensures |b| == |text| + 2
  {
    "(" + text + ")"
  }

  /** The fully parenthesised text of a command. */
  function Print(c: Cmd<string>): string {
    match c
    case Exec(argv) => PrintWords(argv)
    case Redir(d, file, mode, _) => Block(Print(d)) + Operator(mode) + file + " "
    case PipeCmd(l, r) => Block(Print(l)) + "|" + Block(Print(r))
    case ListCmd(l, r) => Block(Print(l)) + ";" + Block(Print(r))
    case Back(d) => Block(Print(d)) + "&"
  }

  // ---------- the parser undoes the printer ----------

  /** text stands in s at i. */
  ghost predicate At(s: string, i: nat, text: string) {
    i + |text| <= |s| && s[i..i + |text|] == text
  }

  /** The end of the line or of a block. */
  predicate Stop(s: string, i: nat) {
    i == |s| || (i < |s| && s[i] == ')')
  }

  lemma AtSplit(s: string, i: nat, a: string, b: string)
    requires At(s, i, a + b)
    ensures At(s, i, a) && At(s, i + |a|, b)
  {
    assert s[i..i + |a|] == (a + b)[..|a|] == a;
    assert s[i + |a|..i + |a| + |b|] == (a + b)[|a|..] == b;
  }

  /** A word followed by a space is read as that word. */
  lemma ReadsWord(s: string, i: nat, w: string)
    requires WordText(w) && At(s, i, w + " ") && (i + |w| + 1 == |s| || !IsSpace(s[i + |w| + 1]))
    ensures GetToken(s, i) == Token(WORD, Span(i, i + |w|), i + |w| + 1) && Word(s, Span(i, i + |w|)) == w
  {
    AtSplit(s, i, w, " ");
    assert forall k :: 0 <= k < |w| ==> s[i + k] == w[k];
    assert s[i] == w[0] && s[i + |w|] == ' ';
    WordEndsAt(s, i, i + |w|);
  }

  lemma {:induction false} WordEndsAt(s: string, i: nat, e: nat)
    requires i <= e < |s| && !IsWordChar(s[e]) && forall k :: i <= k < e ==> IsWordChar(s[k])
    ensures WordEnd(s, i) == e
    decreases e - i
  {
    if i < e {
      WordEndsAt(s, i + 1, e);
    }
  }

  function Spans(i: nat, ws: seq<string>): seq<Span>
    decreases |ws|
  {
    if ws == [] then [] else [Span(i, i + |ws[0]|)] + Spans(i + |ws[0]| + 1, ws[1..])
  }

  /** No space at i, and nothing to redirect. */
  predicate Quiet(s: string, i: nat) {
    i == |s| || (i < |s| && !IsSpace(s[i]) && s[i] != '<' && s[i] != '>')
  }

  lemma QuietHere(s: string, i: nat)
    requires i <= |s| && Quiet(s, i)
    ensures Skip(s, i) == i && !Peek(s, i, "<>") && forall rs :: Redirs(s, i, rs) == Ok(rs, i)
  {
  }

  /** A one-character symbol, and what a peek for it says. */
  lemma SymbolAt(s: string, i: nat)
    requires i < |s| && s[i] in "|();&"
    ensures Skip(s, i) == i && GetToken(s, i) == Token(s[i], Span(i, i + 1), Skip(s, i + 1))
    ensures forall toks: string :: Peek(s, i, toks) <==> s[i] in toks
  {
  }

  // ---------- one level of the grammar at a time ----------

  lemma PipeStops(s: string, i: nat, cmd: Cmd<Span>, e: nat)
    requires i <= |s| && ParseExec(s, i) == Ok(cmd, e) && Quiet(s, e) && (e == |s| || s[e] != '|')
    ensures ParsePipe(s, i) == Ok(cmd, e)
  {
    hide ParseExec, GetToken, Redirs;
    QuietHere(s, e);
  }

  lemma PipeGoes(s: string, i: nat, l: Cmd<Span>, e: nat, r: Result<Cmd<Span>>)
    requires i <= |s| && ParseExec(s, i) == Ok(l, e) && e < |s| && s[e] == '|' && Quiet(s, e + 1) && r.Ok?
    requires ParsePipe(s, e + 1) == r
    ensures ParsePipe(s, i) == Ok(PipeCmd(l, r.value), r.pos)
  {
    hide ParseExec, GetToken, Redirs, Skip;
    SymbolAt(s, e);
    QuietHere(s, e + 1);
  }

  lemma LineStops(s: string, i: nat, cmd: Cmd<Span>, e: nat)
    requires i <= |s| && ParsePipe(s, i) == Ok(cmd, e) && Stop(s, e)
    ensures ParseLine(s, i) == Ok(cmd, e)
  {
    hide ParsePipe, GetToken, Redirs;
    QuietHere(s, e);
  }

  lemma LineGoes(s: string, i: nat, l: Cmd<Span>, e: nat, r: Result<Cmd<Span>>)
    requires i <= |s| && ParsePipe(s, i) == Ok(l, e) && e < |s| && s[e] == ';' && Quiet(s, e + 1) && r.Ok?
    requires ParseLine(s, e + 1) == r
    ensures ParseLine(s, i) == Ok(ListCmd(l, r.value), r.pos)
  {
    hide ParsePipe, GetToken, Redirs, Skip;
    SymbolAt(s, e);
    QuietHere(s, e + 1);
  }

  lemma LineBack(s: string, i: nat, cmd: Cmd<Span>, e: nat)
    requires i <= |s| && ParsePipe(s, i) == Ok(cmd, e) && e < |s| && s[e] == '&' && Stop(s, e + 1)
    ensures ParseLine(s, i) == Ok(Back(cmd), e + 1)
  {
    hide ParsePipe, GetToken, Redirs, Skip;
    SymbolAt(s, e);
    QuietHere(s, e + 1);
    RestStops(s, e + 1, Back(cmd));
  }

  lemma RestStops(s: string, i: nat, cmd: Cmd<Span>)
    requires i <= |s| && Stop(s, i)
    ensures LineRest(s, i, cmd) == Ok(cmd, i)
  {
    hide ParseLine, GetToken;
  }

  // ---------- words ----------

  lemma WordsStartQuiet(s: string, i: nat, ws: seq<string>)
    requires At(s, i, PrintWords(ws)) && Stop(s, i + |PrintWords(ws)|) && forall k :: 0 <= k < |ws| ==> WordText(ws[k])
    ensures i <= |s| && Quiet(s, i) && (i == |s| || !IsSpace(s[i])) && (ws != [] ==> i < |s| && IsWordChar(s[i]))
  {
    if ws != [] {
      assert PrintWords(ws)[0] == ws[0][0] && s[i] == s[i..i + |PrintWords(ws)|][0];
    }
  }

  lemma ArgsStop(s: string, i: nat, argv: seq<Span>)
    requires i <= |s| && Stop(s, i)
    ensures Args(s, i, argv, []) == Ok(Exec(argv), i)
  {
    hide Redirs;
  }

  lemma ArgsGo(s: string, i: nat, argv: seq<Span>, t: Token)
    requires i < |s| && IsWordChar(s[i]) && GetToken(s, i) == t && t.kind == WORD && |argv| + 1 < MAXARGS
    requires Quiet(s, t.pos)
    ensures Args(s, i, argv, []) == Args(s, t.pos, argv + [t.span], [])
  {
    hide GetToken, Redirs, Peek;
    QuietHere(s, t.pos);
    NoPeekWord(s, i);
  }

  lemma NoPeekWord(s: string, i: nat)
    requires i < |s| && IsWordChar(s[i])
    ensures !Peek(s, i, "|)&;") && !Peek(s, i, "(")
  {
  }

  /** The first word is read and the rest starts after the space. */
  lemma FirstWord(s: string, i: nat, ws: seq<string>, argv: seq<Span>, first: Span)
    requires ws != [] && At(s, i, PrintWords(ws)) && Stop(s, i + |PrintWords(ws)|) && |argv| + 1 < MAXARGS
    requires first == Span(i, i + |ws[0]|) && forall k :: 0 <= k < |ws| ==> WordText(ws[k])
    ensures PrintWords(ws) == (ws[0] + " ") + PrintWords(ws[1..]) && At(s, first.eq + 1, PrintWords(ws[1..]))
    ensures Args(s, i, argv, []) == Args(s, first.eq + 1, argv + [first], [])
    ensures first.eq <= |s| && Word(s, first) == ws[0]
  {
    hide Args, GetToken, Quiet, IsWordChar, WordText, Word, At, IsSpace;
    var w, rest := ws[0], ws[1..];
    WordsStartQuiet(s, i, ws);
    AtSplit(s, i, w + " ", PrintWords(rest));
    WordsStartQuiet(s, i + |w| + 1, rest);
    ReadsWord(s, i, w);
    ArgsGo(s, i, argv, GetToken(s, i));
  }

  lemma {:induction false} WordsParse(s: string, i: nat, ws: seq<string>, argv: seq<Span>)
    requires At(s, i, PrintWords(ws)) && Stop(s, i + |PrintWords(ws)|) && |argv| + |ws| < MAXARGS
    requires forall k :: 0 <= k < |ws| ==> WordText(ws[k])
    ensures Args(s, i, argv, []) == Ok(Exec(argv + Spans(i, ws)), i + |PrintWords(ws)|) && Words(s, Spans(i, ws)) == ws
    decreases |ws|
  {
    hide Args, GetToken, Quiet, IsWordChar, WordText, Word, At, IsSpace, Stop;
    WordsStartQuiet(s, i, ws);
    if ws == [] {
      ArgsStop(s, i, argv);
      assert argv + Spans(i, ws) == argv;
    } else {
      var w, rest := ws[0], ws[1..];
      var first := Span(i, i + |w|);
      FirstWord(s, i, ws, argv, first);
      WordsParse(s, first.eq + 1, rest, argv + [first]);
      MoreSpans(s, argv, first, Spans(first.eq + 1, rest));
    }
  }

  lemma MoreSpans(s: string, argv: seq<Span>, w: Span, rest: seq<Span>)
    ensures argv + [w] + rest == argv + ([w] + rest) && Words(s, [w] + rest) == [Word(s, w)] + Words(s, rest)
  {
  }

  lemma ExecParses(s: string, i: nat, ws: seq<string>)
    requires At(s, i, PrintWords(ws)) && Stop(s, i + |PrintWords(ws)|) && |ws| < MAXARGS
    requires forall k :: 0 <= k < |ws| ==> WordText(ws[k])
    ensures ParseExec(s, i) == Ok(Exec(Spans(i, ws)), i + |PrintWords(ws)|) && Words(s, Spans(i, ws)) == ws
  {
    hide Args, ParseBlock, GetToken, Redirs, WordText, Words;
    WordsStartQuiet(s, i, ws);
    QuietHere(s, i);
    WordsParse(s, i, ws, []);
    assert [] + Spans(i, ws) == Spans(i, ws);
  }

  // ---------- blocks ----------

  lemma BlockAt(s: string, i: nat, text: string)
    requires At(s, i, Block(text))
    ensures i + |text| + 2 <= |s| && s[i] == '(' && s[i + |text| + 1] == ')' && At(s, i + 1, text)
  {
    AtBetween(s, i, "(", text, ")");
  }

  lemma AtBetween(s: string, i: nat, a: string, b: string, c: string)
    requires At(s, i, a + b + c) && |a| == 1 && |c| == 1
    ensures i + |b| + 2 <= |s| && s[i] == a[0] && s[i + 1 + |b|] == c[0] && At(s, i + 1, b)
  {
    AtSplit(s, i, a + b, c);
    AtSplit(s, i, a, b);
    assert s[i] == s[i..i + 1][0] && s[i + 1 + |b|] == s[i + 1 + |b|..i + 2 + |b|][0];
  }

  lemma PrintStarts(c: Cmd<string>)
    requires Printable(c)
    ensures |Print(c)| > 0 ==> Quiet(Print(c), 0)
  {
  }

  lemma StartsAt(s: string, i: nat, text: string)
    requires At(s, i, text)
    ensures |text| > 0 ==> i < |s| && s[i] == text[0]
  {
    assert |text| > 0 ==> s[i] == s[i..i + |text|][0];
  }

  lemma BlockEdges(s: string, i: nat, c: Cmd<string>)
    requires Printable(c) && At(s, i, Block(Print(c)))
    ensures
      var e := i + |Print(c)| + 2;
      && e <= |s| && s[i] == '(' && s[e - 1] == ')' && At(s, i + 1, Print(c))
      && Stop(s, e - 1) && Quiet(s, i) && Quiet(s, i + 1)
  {
    hide Print, Printable, Block, At;
    BlockAt(s, i, Print(c));
    PrintStarts(c);
    StartsAt(s, i + 1, Print(c));
  }

  /** A block is parsed up to what follows its parenthesis. */
  lemma BlockParses(s: string, i: nat, c: Cmd<string>, cmd: Cmd<Span>)
    requires Printable(c) && At(s, i, Block(Print(c))) && ParseLine(s, i + 1) == Ok(cmd, i + 1 + |Print(c)|)
    ensures
      var e := i + |Print(c)| + 2;
      && e <= |s|
      && var rs := Redirs(s, Skip(s, e), []);
      ParseExec(s, i) == if rs.Panic? then Panic else Ok(Wrap(cmd, rs.value), rs.pos)
  {
    hide ParseLine, Redirs, GetToken, Peek, Skip, Print, Printable, At, Wrap;
    var e := i + |Print(c)| + 2;
    BlockEdges(s, i, c);
    SymbolAt(s, i);
    SymbolAt(s, e - 1);
    QuietHere(s, i + 1);
  }

  /** A block with nothing to redirect after it. */
  lemma BlockAlone(s: string, i: nat, c: Cmd<string>, cmd: Cmd<Span>)
    requires Printable(c) && At(s, i, Block(Print(c))) && ParseLine(s, i + 1) == Ok(cmd, i + 1 + |Print(c)|)
    requires Quiet(s, i + |Print(c)| + 2)
    ensures i + |Print(c)| + 2 <= |s| && ParseExec(s, i) == Ok(cmd, i + |Print(c)| + 2)
  {
    hide ParseLine, ParseExec, Redirs, GetToken, Peek, Skip, Print, Printable, At;
    BlockParses(s, i, c, cmd);
    QuietHere(s, i + |Print(c)| + 2);
  }

  // ---------- the theorem ----------

  /** Parsing undoes printing, up to the end of the line or of the enclosing block. */
  lemma {:induction false} PrintParses(s: string, i: nat, c: Cmd<string>) returns (cmd: Cmd<Span>)
    requires Printable(c) && At(s, i, Print(c)) && Stop(s, i + |Print(c)|)
    ensures ParseLine(s, i) == Ok(cmd, i + |Print(c)|) && Text(s, cmd) == c
    decreases c, 2
  {
    hide ParseLine, ParsePipe, ParseExec, At, Stop, Spans;
    match c {
      case Exec(argv) =>
        cmd := Exec(Spans(i, argv));
        ExecParses(s, i, argv);
        StopQuiet(s, i + |Print(c)|);
        PipeStops(s, i, cmd, i + |Print(c)|);
        LineStops(s, i, cmd, i + |Print(c)|);
      case Redir(d, file, mode, fd) =>
        cmd := RedirParses(s, i, d, file, mode, fd);
      case PipeCmd(l, r) =>
        cmd := PipeParses(s, i, l, r);
      case ListCmd(l, r) =>
        cmd := ListParses(s, i, l, r);
      case Back(d) =>
        cmd := BackParses(s, i, d);
    }
  }

  lemma StopQuiet(s: string, i: nat)
    requires Stop(s, i)
    ensures Quiet(s, i) && (i == |s| || (i < |s| && s[i] != '|'))
  {
  }

  lemma {:induction false} BackParses(s: string, i: nat, d: Cmd<string>) returns (cmd: Cmd<Span>)
    requires Printable(d) && At(s, i, Print(Back(d))) && Stop(s, i + |Print(Back(d))|)
    ensures ParseLine(s, i) == Ok(cmd, i + |Print(Back(d))|) && Text(s, cmd) == Back(d)
    decreases Back(d), 1
  {
    hide ParseLine, ParsePipe, ParseExec;
    var block := Block(Print(d));
    var e := i + |block|;
    assert Print(Back(d)) == block + "&";
    AtSplit(s, i, block, "&");
    assert s[e] == s[e..e + 1][0];
    BlockEdges(s, i, d);
    var sub := PrintParses(s, i + 1, d);
    BlockAlone(s, i, d, sub);
    PipeStops(s, i, sub, e);
    LineBack(s, i, sub, e);
    cmd := Back(sub);
  }

  lemma AtThree(s: string, i: nat, left: string, op: string, right: string)
    requires |op| == 1 && At(s, i, left + op + right)
    ensures At(s, i, left) && i + |left| < |s| && s[i + |left|] == op[0] && At(s, i + |left| + 1, right)
  {
    var e := i + |left|;
    assert left + op + right == left + (op + right);
    AtSplit(s, i, left, op + right);
    AtSplit(s, e, op, right);
    assert s[e] == s[e..e + 1][0];
  }

  /** Two blocks with a one-character operator between them. */
  lemma TwoBlocks(s: string, i: nat, l: Cmd<string>, op: string, r: Cmd<string>)
    requires Printable(l) && Printable(r) && |op| == 1 && At(s, i, Block(Print(l)) + op + Block(Print(r)))
    ensures
      var e := i + |Print(l)| + 2;
      && e + |Print(r)| + 3 <= |s| && s[e] == op[0]
      && At(s, i, Block(Print(l))) && At(s, i + 1, Print(l)) && Stop(s, e - 1)
      && At(s, e + 1, Block(Print(r))) && At(s, e + 2, Print(r)) && Stop(s, e + 2 + |Print(r)|) && Quiet(s, e + 1)
  {
    hide Print, Printable, Block, Stop, Quiet, At;
    var e := i + |Print(l)| + 2;
    AtThree(s, i, Block(Print(l)), op, Block(Print(r)));
    BlockEdges(s, i, l);
    BlockEdges(s, e + 1, r);
  }

  /** A block up to the end of the line or of the enclosing block. */
  lemma BlockUpToStop(s: string, i: nat, c: Cmd<string>, cmd: Cmd<Span>)
    requires Printable(c) && At(s, i, Block(Print(c))) && ParseLine(s, i + 1) == Ok(cmd, i + 1 + |Print(c)|)
    requires Stop(s, i + |Print(c)| + 2)
    ensures
      var e := i + |Print(c)| + 2;
      i <= e <= |s| && ParsePipe(s, i) == Ok(cmd, e) && ParseLine(s, i) == Ok(cmd, e)
  {
    hide ParseLine, ParsePipe, ParseExec, Print, Printable, At, Block, Quiet;
    var e := i + |Print(c)| + 2;
    StopQuiet(s, e);
    BlockAlone(s, i, c, cmd);
    PipeStops(s, i, cmd, e);
    LineStops(s, i, cmd, e);
  }

  lemma PrintedPair(l: Cmd<string>, r: Cmd<string>)
    ensures Print(ListCmd(l, r)) == Block(Print(l)) + ";" + Block(Print(r))
    ensures Print(PipeCmd(l, r)) == Block(Print(l)) + "|" + Block(Print(r))
    ensures |Print(ListCmd(l, r))| == |Print(PipeCmd(l, r))| == |Print(l)| + |Print(r)| + 5
  {
  }

  lemma {:induction false} ListParses(s: string, i: nat, l: Cmd<string>, r: Cmd<string>) returns (cmd: Cmd<Span>)
    requires Printable(l) && Printable(r) && At(s, i, Print(ListCmd(l, r))) && Stop(s, i + |Print(ListCmd(l, r))|)
    ensures ParseLine(s, i) == Ok(cmd, i + |Print(ListCmd(l, r))|) && Text(s, cmd) == ListCmd(l, r)
    decreases ListCmd(l, r), 1
  {
    hide ParseLine, ParsePipe, ParseExec, At, Stop, Print, Printable, Block;
    PrintedPair(l, r);
    TwoBlocks(s, i, l, ";", r);
    var e, end := i + |Print(l)| + 2, i + |Print(ListCmd(l, r))|;
    var sub1 := PrintParses(s, i + 1, l);
    var sub2 := PrintParses(s, e + 2, r);
    assert ParsePipe(s, i) == Ok(sub1, e) by {
      BlockAlone(s, i, l, sub1);
      PipeStops(s, i, sub1, e);
    }
    BlockUpToStop(s, e + 1, r, sub2);
    LineGoes(s, i, sub1, e, Ok(sub2, end));
    cmd := ListCmd(sub1, sub2);
  }

  lemma {:induction false} PipeParses(s: string, i: nat, l: Cmd<string>, r: Cmd<string>) returns (cmd: Cmd<Span>)
    requires Printable(l) && Printable(r) && At(s, i, Print(PipeCmd(l, r))) && Stop(s, i + |Print(PipeCmd(l, r))|)
    ensures ParseLine(s, i) == Ok(cmd, i + |Print(PipeCmd(l, r))|) && Text(s, cmd) == PipeCmd(l, r)
    decreases PipeCmd(l, r), 1
  {
    hide ParseLine, ParsePipe, ParseExec, At, Print, Printable, Block;
    PrintedPair(l, r);
    TwoBlocks(s, i, l, "|", r);
    var e, end := i + |Print(l)| + 2, i + |Print(PipeCmd(l, r))|;
    var sub1 := PrintParses(s, i + 1, l);
    var sub2 := PrintParses(s, e + 2, r);
    assert ParseExec(s, i) == Ok(sub1, e) by {
      BlockAlone(s, i, l, sub1);
    }
    BlockUpToStop(s, e + 1, r, sub2);
    PipeGoes(s, i, sub1, e, Ok(sub2, end));
    cmd := PipeCmd(sub1, sub2);
    LineStops(s, i, cmd, end);
  }

  /** The redirection operator at e is read as one token. */
  lemma OperatorReads(s: string, e: nat, mode: int, fd: int, f: Span)
    requires IsForm(mode, fd) && At(s, e, Operator(mode)) && e + |Operator(mode)| < |s|
    requires IsWordChar(s[e + |Operator(mode)|])
    ensures Skip(s, e) == e && Peek(s, e, "<>")
    ensures GetToken(s, e).pos == e + |Operator(mode)| && Form(GetToken(s, e).kind, f) == RedirSpec(f, mode, fd)
  {
    var op := Operator(mode);
    assert s[e] == s[e..e + |op|][0] && (|op| == 2 ==> s[e + 1] == s[e..e + |op|][1]);
  }

  lemma OperatorThenWord(s: string, e: nat, op: string, file: string)
    requires WordText(file) && At(s, e, op + file + " ")
    ensures At(s, e, op) && At(s, e + |op|, file + " ") && e + |op| < |s| && IsWordChar(s[e + |op|])
  {
    hide At;
    assert op + file + " " == op + (file + " ");
    AtSplit(s, e, op, file + " ");
    StartsAt(s, e + |op|, file + " ");
  }

  /** A redirection operator, a file name and a space. */
  lemma RedirReads(s: string, e: nat, file: string, mode: int, fd: int)
    requires WordText(file) && IsForm(mode, fd) && At(s, e, Operator(mode) + file + " ")
    requires Stop(s, e + |Operator(mode)| + |file| + 1)
    ensures
      var f := Span(e + |Operator(mode)|, e + |Operator(mode)| + |file|);
      && Skip(s, e) == e && Word(s, f) == file
      && Redirs(s, e, []) == Ok([RedirSpec(f, mode, fd)], e + |Operator(mode)| + |file| + 1)
  {
    hide GetToken, Peek, Skip, Form, Operator, IsForm, Redirs, At, Quiet, WordText, IsWordChar, Word;
    var op := Operator(mode);
    var q := e + |op|;
    var f := Span(q, q + |file|);
    OperatorThenWord(s, e, op, file);
    OperatorReads(s, e, mode, fd, f);
    ReadsWord(s, q, file);
    StopQuiet(s, q + |file| + 1);
    QuietHere(s, q + |file| + 1);
    OneRedir(s, e, []);
    assert [] + [RedirSpec(f, mode, fd)] == [RedirSpec(f, mode, fd)];
  }

  lemma OneRedir(s: string, i: nat, rs: seq<RedirSpec<Span>>)
    requires i <= |s| && Peek(s, i, "<>") && GetToken(s, GetToken(s, i).pos).kind == WORD
    ensures
      var t := GetToken(s, i);
      var f := GetToken(s, t.pos);
      Redirs(s, i, rs) == Redirs(s, f.pos, rs + [Form(t.kind, f.span)])
  {
  }

  lemma PrintedRedir(d: Cmd<string>, file: string, mode: int, fd: int)
    ensures Print(Redir(d, file, mode, fd)) == Block(Print(d)) + (Operator(mode) + file + " ")
    ensures |Block(Print(d))| == |Print(d)| + 2
  {
  }

  /** A block with one redirection after it, up to the end of the line or of the enclosing block. */
  lemma BlockRedirected(s: string, i: nat, d: Cmd<string>, file: string, mode: int, fd: int, sub: Cmd<Span>)
    requires Printable(d) && At(s, i, Block(Print(d))) && ParseLine(s, i + 1) == Ok(sub, i + 1 + |Print(d)|)
    requires WordText(file) && IsForm(mode, fd) && At(s, i + |Print(d)| + 2, Operator(mode) + file + " ")
    requires Stop(s, i + |Print(d)| + 2 + |Operator(mode)| + |file| + 1)
    ensures
      var e := i + |Print(d)| + 2 + |Operator(mode)|;
      && Word(s, Span(e, e + |file|)) == file
      && ParseExec(s, i) == Ok(Redir(sub, Span(e, e + |file|), mode, fd), e + |file| + 1)
  {
    hide ParseLine, ParseExec, GetToken, Redirs, Skip, At, Print, Printable, Block, Operator, IsForm, WordText, Stop;
    var e := i + |Print(d)| + 2;
    BlockParses(s, i, d, sub);
    RedirReads(s, e, file, mode, fd);
    var rs := [RedirSpec(Span(e + |Operator(mode)|, e + |Operator(mode)| + |file|), mode, fd)];
    assert rs[..0] == [] && Wrap(sub, rs[..0]) == sub;
  }

  lemma {:induction false} RedirParses(s: string, i: nat, d: Cmd<string>, file: string, mode: int, fd: int)
    returns (cmd: Cmd<Span>)
    requires Printable(d) && WordText(file) && IsForm(mode, fd)
    requires At(s, i, Print(Redir(d, file, mode, fd))) && Stop(s, i + |Print(Redir(d, file, mode, fd))|)
    ensures ParseLine(s, i) == Ok(cmd, i + |Print(Redir(d, file, mode, fd))|)
    ensures Text(s, cmd) == Redir(d, file, mode, fd)
    decreases Redir(d, file, mode, fd), 1
  {
    hide ParseLine, ParsePipe, ParseExec, At, Print, Printable, Block, Operator, IsForm, WordText;
    PrintedRedir(d, file, mode, fd);
    AtSplit(s, i, Block(Print(d)), Operator(mode) + file + " ");
    BlockEdges(s, i, d);
    var sub := PrintParses(s, i + 1, d);
    var e := i + |Print(d)| + 2 + |Operator(mode)|;
    BlockRedirected(s, i, d, file, mode, fd, sub);
    cmd := Redir(sub, Span(e, e + |file|), mode, fd);
    StopQuiet(s, e + |file| + 1);
    PipeStops(s, i, cmd, e + |file| + 1);
    LineStops(s, i, cmd, e + |file| + 1);
  }

  /** For every printable command, the parser reads its text back as the same command. */
  lemma RoundTrip(c: Cmd<string>)
    requires Printable(c)
    ensures ParseCmd(Print(c)).Ok? && Text(Print(c), ParseCmd(Print(c)).value) == c
  {
    hide ParseLine, Print, Text;
    var s := Print(c);
    assert s[0..|s|] == s;
    var cmd := PrintParses(s, 0, c);
    QuietHere(s, |s|);
  }

  // ---------- what the parser accepts ----------

  /** Every word of the tree is a word of the line, in the numbers and forms a line can denote. */
  predicate FromLine(s: string, cmd: Cmd<Span>) {
    match cmd
    case Exec(argv) => |argv| < MAXARGS && forall k :: 0 <= k < |argv| ==> IsWord(s, argv[k])
    case Redir(c, file, mode, fd) => FromLine(s, c) && IsWord(s, file) && IsForm(mode, fd)
    case PipeCmd(l, r) => FromLine(s, l) && FromLine(s, r)
    case ListCmd(l, r) => FromLine(s, l) && FromLine(s, r)
    case Back(c) => FromLine(s, c)
  }

  predicate SpecsOk(s: string, rs: seq<RedirSpec<Span>>) {
    forall k :: 0 <= k < |rs| ==> IsWord(s, rs[k].file) && IsForm(rs[k].mode, rs[k].fd)
  }

  lemma {:induction false} WrapFromLine(s: string, cmd: Cmd<Span>, rs: seq<RedirSpec<Span>>)
    requires FromLine(s, cmd) && SpecsOk(s, rs)
    ensures FromLine(s, Wrap(cmd, rs))
    decreases |rs|
  {
    if rs != [] {
      WrapFromLine(s, cmd, rs[..|rs| - 1]);
    }
  }

  lemma {:induction false} RedirsFromLine(s: string, i: nat, rs: seq<RedirSpec<Span>>)
    requires i <= |s| && SpecsOk(s, rs)
    ensures Redirs(s, i, rs).Ok? ==> SpecsOk(s, Redirs(s, i, rs).value)
    decreases |s| - i
  {
    if Peek(s, i, "<>") {
      var t := GetToken(s, i);
      var f := GetToken(s, t.pos);
      if f.kind == WORD {
        RedirsFromLine(s, f.pos, rs + [Form(t.kind, f.span)]);
      }
    }
  }

  lemma {:induction false} ArgsFromLine(s: string, i: nat, argv: seq<Span>, rs: seq<RedirSpec<Span>>)
    requires i <= |s| && SpecsOk(s, rs) && FromLine(s, Exec(argv))
    ensures Args(s, i, argv, rs).Ok? ==> FromLine(s, Args(s, i, argv, rs).value)
    decreases |s| - i
  {
    WrapFromLine(s, Exec(argv), rs);
    var t := GetToken(s, i);
    if !Peek(s, i, "|)&;") && t.kind == WORD && |argv| + 1 < MAXARGS {
      RedirsFromLine(s, t.pos, rs);
      var r := Redirs(s, t.pos, rs);
      if r.Ok? {
        ArgsFromLine(s, r.pos, argv + [t.span], r.value);
      }
    }
  }

  lemma {:induction false} ExecFromLine(s: string, i: nat)
    requires i <= |s|
    ensures ParseExec(s, i).Ok? ==> FromLine(s, ParseExec(s, i).value)
    decreases |s| - i, 2
  {
    if Peek(s, i, "(") {
      var r := ParseLine(s, GetToken(s, i).pos);
      LineFromLine(s, GetToken(s, i).pos);
      if r.Ok? && Peek(s, r.pos, ")") {
        RedirsFromLine(s, GetToken(s, r.pos).pos, []);
        var rs := Redirs(s, GetToken(s, r.pos).pos, []);
        if rs.Ok? {
          WrapFromLine(s, r.value, rs.value);
        }
      }
    } else {
      RedirsFromLine(s, i, []);
      var r := Redirs(s, i, []);
      if r.Ok? {
        ArgsFromLine(s, r.pos, [], r.value);
      }
    }
  }

  lemma {:induction false} PipeFromLine(s: string, i: nat)
    requires i <= |s|
    ensures ParsePipe(s, i).Ok? ==> FromLine(s, ParsePipe(s, i).value)
    decreases |s| - i, 3
  {
    ExecFromLine(s, i);
    var r := ParseExec(s, i);
    if r.Ok? && Peek(s, r.pos, "|") {
      PipeFromLine(s, GetToken(s, r.pos).pos);
    }
  }

  lemma {:induction false} LineFromLine(s: string, i: nat)
    requires i <= |s|
    ensures ParseLine(s, i).Ok? ==> FromLine(s, ParseLine(s, i).value)
    decreases |s| - i, 5
  {
    PipeFromLine(s, i);
    var r := ParsePipe(s, i);
    if r.Ok? {
      RestFromLine(s, r.pos, r.value);
    }
  }

  lemma {:induction false} RestFromLine(s: string, i: nat, cmd: Cmd<Span>)
    requires i <= |s| && FromLine(s, cmd)
    ensures LineRest(s, i, cmd).Ok? ==> FromLine(s, LineRest(s, i, cmd).value)
    decreases |s| - i, 4
  {
    if Peek(s, i, "&") {
      RestFromLine(s, GetToken(s, i).pos, Back(cmd));
    } else if Peek(s, i, ";") {
      LineFromLine(s, GetToken(s, i).pos);
    }
  }

  lemma {:induction false} FromLinePrintable(s: string, cmd: Cmd<Span>)
    requires FromLine(s, cmd)
    ensures Printable(Text(s, cmd))
  {
    match cmd
    case Exec(argv) =>
      forall k | 0 <= k < |argv| ensures WordText(Word(s, argv[k])) {
      }
    case Redir(c, _, _, _) => FromLinePrintable(s, c);
    case PipeCmd(l, r) =>
      FromLinePrintable(s, l);
      FromLinePrintable(s, r);
    case ListCmd(l, r) =>
      FromLinePrintable(s, l);
      FromLinePrintable(s, r);
    case Back(c) => FromLinePrintable(s, c);
  }

  /** For every line: if it is accepted, printing its command in full and parsing that gives the same command. */
  lemma AcceptedLines(s: string)
    ensures
      var r := ParseCmd(s);
      r.Ok? ==>
        && FromLine(s, r.value) && Printable(Text(s, r.value))
        && var full := Print(Text(s, r.value));
        ParseCmd(full).Ok? && Text(full, ParseCmd(full).value) == Text(s, r.value)
  {
    hide ParseLine, FromLine, Printable, Print, Text;
    LineFromLine(s, 0);
    var r := ParseCmd(s);
    if r.Ok? {
      FromLinePrintable(s, r.value);
      RoundTrip(Text(s, r.value));
    }
  }

  // ---------- nulterminate ----------

  /** The places where nulterminate writes a NUL. */
  function Ends(cmd: Cmd<Span>): set<nat> {
    match cmd
    case Exec(argv) => set k | 0 <= k < |argv| :: argv[k].eq
    case Redir(c, file, _, _) => Ends(c) + {file.eq}
    case PipeCmd(l, r) => Ends(l) + Ends(r)
    case ListCmd(l, r) => Ends(l) + Ends(r)
    case Back(c) => Ends(c)
  }

  /** The buffer of a line, with its NUL, after NULs were written at ends. */
  ghost predicate Terminated(s: string, buf: seq<char>, ends: set<nat>) {
    |buf| == |s| + 1 && forall k: nat :: k <= |s| ==> buf[k] == if k in ends || k == |s| then NUL else s[k]
  }

  /** w, read as a C string, is the word it was in the line. */
  predicate ReadsAs(s: string, buf: seq<char>, w: Span) {
    w.q <= w.eq < |buf| && w.eq <= |s| && buf[w.q..w.eq] == s[w.q..w.eq] && buf[w.eq] == NUL
  }

  predicate AllRead(s: string, buf: seq<char>, cmd: Cmd<Span>) {
    match cmd
    case Exec(argv) => forall k :: 0 <= k < |argv| ==> ReadsAs(s, buf, argv[k])
    case Redir(c, file, _, _) => AllRead(s, buf, c) && ReadsAs(s, buf, file)
    case PipeCmd(l, r) => AllRead(s, buf, l) && AllRead(s, buf, r)
    case ListCmd(l, r) => AllRead(s, buf, l) && AllRead(s, buf, r)
    case Back(c) => AllRead(s, buf, c)
  }

  /** No NUL is written into a word. */
  lemma {:induction false} EndsOutside(s: string, cmd: Cmd<Span>, k: nat)
    requires FromLine(s, cmd) && k in Ends(cmd)
    ensures k <= |s| && (k < |s| ==> !IsWordChar(s[k]))
  {
    match cmd
    case Exec(argv) =>
      var j :| 0 <= j < |argv| && argv[j].eq == k;
      assert IsWord(s, argv[j]);
    case Redir(c, file, _, _) =>
      if k != file.eq {
        EndsOutside(s, c, k);
      }
    case PipeCmd(l, r) => if k in Ends(l) { EndsOutside(s, l, k); } else { EndsOutside(s, r, k); }
    case ListCmd(l, r) => if k in Ends(l) { EndsOutside(s, l, k); } else { EndsOutside(s, r, k); }
    case Back(c) => EndsOutside(s, c, k);
  }

  lemma WordReads(s: string, buf: seq<char>, cmd: Cmd<Span>, w: Span)
    requires FromLine(s, cmd) && Terminated(s, buf, Ends(cmd)) && IsWord(s, w) && w.eq in Ends(cmd)
    ensures ReadsAs(s, buf, w)
  {
    hide FromLine, Ends;
    forall k | w.q <= k < w.eq ensures buf[k] == s[k] {
      if k in Ends(cmd) {
        EndsOutside(s, cmd, k);
      }
    }
    assert buf[w.q..w.eq] == s[w.q..w.eq];
  }

  lemma {:induction false} PartReads(s: string, buf: seq<char>, cmd: Cmd<Span>, part: Cmd<Span>)
    requires FromLine(s, cmd) && Terminated(s, buf, Ends(cmd)) && FromLine(s, part) && Ends(part) <= Ends(cmd)
    ensures AllRead(s, buf, part)
    decreases part
  {
    match part
    case Exec(argv) =>
      forall k | 0 <= k < |argv| ensures ReadsAs(s, buf, argv[k]) {
        assert argv[k].eq in Ends(part);
        WordReads(s, buf, cmd, argv[k]);
      }
    case Redir(c, file, _, _) =>
      assert file.eq in Ends(part);
      WordReads(s, buf, cmd, file);
      PartReads(s, buf, cmd, c);
    case PipeCmd(l, r) =>
      PartReads(s, buf, cmd, l);
      PartReads(s, buf, cmd, r);
    case ListCmd(l, r) =>
      PartReads(s, buf, cmd, l);
      PartReads(s, buf, cmd, r);
    case Back(c) => PartReads(s, buf, cmd, c);
  }

  /** After nulterminate, every argument and file name of an accepted line reads as its token. */
  lemma NulTerminateKeepsTokens(s: string, buf: seq<char>)
    requires ParseCmd(s).Ok? && Terminated(s, buf, Ends(ParseCmd(s).value))
    ensures AllRead(s, buf, ParseCmd(s).value)
  {
    hide ParseLine, FromLine, AllRead, Ends, Terminated;
    LineFromLine(s, 0);
    PartReads(s, buf, ParseCmd(s).value, ParseCmd(s).value);
  }
}
