/** The shell's parser: a cursor over the input line, and the command tree it builds. A command holds the
    positions of its words in the line; nulterminate then makes C strings of them in place. */
module Shell {
  import opened Common
  import opened ShellSyntax

  const NUL := 0 as char
  const O_RDONLY := 0
  const O_WRONLY := 0x001
  const O_CREATE := 0x200
  const O_TRUNC := 0x400

  /** text[q..e], for pointers q and eq into the line. */
  datatype Span = Span(q: nat, e: nat)

  datatype Cmd =
    | ExecCmd(argv: seq<Span>)
    | RedirCmd(cmd: Cmd, file: Span, mode: int, fd: int)
    | PipeCmd(left: Cmd, right: Cmd)
    | ListCmd(left: Cmd, right: Cmd)
    | BackCmd(cmd: Cmd)

  /** A command and the cursor behind it, or a panic over the syntax. */
  datatype Result = Error | Ok(cmd: Cmd, s: nat)

  // ---- the tree a derivation stands for ----

  function SpanOf(k: Token): (r: Span) {
    Span(k.q, k.e)
  }

  function Redirected(c: Cmd, op: char, file: Span): (r: Cmd) {
    if op == '<' then RedirCmd(c, file, O_RDONLY, 0)
    else if op == '>' then RedirCmd(c, file, O_WRONLY + O_CREATE + O_TRUNC, 1)
    else RedirCmd(c, file, O_WRONLY + O_CREATE, 1)
  }

  /** Later redirections go around earlier ones. */
  function Wrap(c: Cmd, rs: seq<Redirect>): (r: Cmd)
    decreases |rs|
  {
    if rs == [] then c else Wrap(Redirected(c, rs[0].op.kind, SpanOf(rs[0].file)), rs[1..])
  }

  function Words(xs: seq<Item>): (r: seq<Span>) {
    if xs == [] then [] else [SpanOf(xs[0].word)] + Words(xs[1..])
  }

  function Redirs(xs: seq<Item>): (r: seq<Redirect>) {
    if xs == [] then [] else xs[0].redirs + Redirs(xs[1..])
  }

  function Backs(c: Cmd, n: nat): (r: Cmd)
    decreases n
  {
    if n == 0 then c else Backs(BackCmd(c), n - 1)
  }

  function LineTree(l: Line): (r: Cmd) {
    var c := Backs(PipeTree(l.pipe), |l.backs|);
    if l.more.Some? then ListCmd(c, LineTree(l.more.value.line)) else c
  }

  function PipeTree(p: Pipe): (r: Cmd) {
    if p.more.Some? then PipeCmd(ExecTree(p.exec), PipeTree(p.more.value.pipe)) else ExecTree(p.exec)
  }

  function ExecTree(x: Exec): (r: Cmd) {
    match x
    case Block(_, line, _, redirs) => Wrap(LineTree(line), redirs)
    case Simple(redirs, items) => Wrap(ExecCmd(Words(items)), redirs + Redirs(items))
  }

  // ---- what the tree keeps of the line ----

  /** A word, a redirection to or from a file, or one of the operators | ; and &. */
  datatype Mark = Word(x: Span) | File(op: char, x: Span) | Op(op: char)

  predicate IsOp(c: char) {
    c == '|' || c == ';' || c == '&'
  }

  /** The words and operators of the line in order, without redirections and parentheses. */
  function WordsIn(ts: seq<Token>): (ms: seq<Mark>) {
    if ts == [] then []
    else if IsRedir(ts[0].kind) then (if |ts| == 1 then [] else WordsIn(ts[2..]))
    else (if ts[0].kind == 'a' then [Word(SpanOf(ts[0]))] else if IsOp(ts[0].kind) then [Op(ts[0].kind)] else [])
         + WordsIn(ts[1..])
  }

  /** Its redirections and operators in order. */
  function FilesIn(ts: seq<Token>): (ms: seq<Mark>) {
    if ts == [] then []
    else if IsRedir(ts[0].kind) then
      if |ts| == 1 then [] else [File(ts[0].kind, SpanOf(ts[1]))] + FilesIn(ts[2..])
    else (if IsOp(ts[0].kind) then [Op(ts[0].kind)] else []) + FilesIn(ts[1..])
  }

  /** The words and operators of a tree, left before right. */
  function TreeWordsOf(c: Cmd): (ms: seq<Mark>) {
    match c
    case ExecCmd(argv) => seq(|argv|, i requires 0 <= i < |argv| => Word(argv[i]))
    case RedirCmd(d, _, _, _) => TreeWordsOf(d)
    case PipeCmd(l, r) => TreeWordsOf(l) + [Op('|')] + TreeWordsOf(r)
    case ListCmd(l, r) => TreeWordsOf(l) + [Op(';')] + TreeWordsOf(r)
    case BackCmd(d) => TreeWordsOf(d) + [Op('&')]
  }

  /** Its redirections, the outer after the inner, and operators. */
  function TreeFilesOf(c: Cmd): (ms: seq<Mark>) {
    match c
    case ExecCmd(_) => []
    case RedirCmd(d, file, mode, fd) => TreeFilesOf(d) + [File(OpOf(mode, fd), file)]
    case PipeCmd(l, r) => TreeFilesOf(l) + [Op('|')] + TreeFilesOf(r)
    case ListCmd(l, r) => TreeFilesOf(l) + [Op(';')] + TreeFilesOf(r)
    case BackCmd(d) => TreeFilesOf(d) + [Op('&')]
  }

  /** What a mode and a descriptor were written as: < opens for reading as input, > for writing a new file as
      output, >> for writing as output. */
  function OpOf(mode: int, fd: int): (op: char) {
    if mode == 0x000 && fd == 0 then '<'
    else if mode == 0x601 && fd == 1 then '>'
    else if mode == 0x201 && fd == 1 then '+'
    else '?'
  }

  lemma {:induction false} RedirMarks(c: Cmd, rs: seq<Redirect>, rest: seq<Token>)
    requires OkRedirs(rs)
    ensures WordsIn(YieldRedirs(rs) + rest) == WordsIn(rest) && TreeWordsOf(Wrap(c, rs)) == TreeWordsOf(c)
    ensures TreeFilesOf(c) + FilesIn(YieldRedirs(rs) + rest) == TreeFilesOf(Wrap(c, rs)) + FilesIn(rest)
    decreases |rs|
  {
    hide YieldRedirs;
    var ts := YieldRedirs(rs) + rest;
    YieldRedirsRest(rs, rest);
    if rs != [] {
      var d := Redirected(c, rs[0].op.kind, SpanOf(rs[0].file));
      RedirMarks(d, rs[1..], rest);
      assert ts[2..] == YieldRedirs(rs[1..]) + rest;
      assert TreeFilesOf(d) == TreeFilesOf(c) + [File(rs[0].op.kind, SpanOf(rs[0].file))];
    }
  }

  lemma MarksMore(k: Token, ts: seq<Token>)
    requires !IsRedir(k.kind)
    ensures WordsIn([k] + ts) ==
      (if k.kind == 'a' then [Word(SpanOf(k))] else if IsOp(k.kind) then [Op(k.kind)] else []) + WordsIn(ts)
    ensures FilesIn([k] + ts) == (if IsOp(k.kind) then [Op(k.kind)] else []) + FilesIn(ts)
  {
    assert ([k] + ts)[1..] == ts;
  }

  lemma ArgsMore(x: Span, argv: seq<Span>)
    ensures TreeWordsOf(ExecCmd([x] + argv)) == [Word(x)] + TreeWordsOf(ExecCmd(argv)) && TreeWordsOf(ExecCmd([])) == []
  {
  }

  lemma {:induction false} ItemMarks(c: Cmd, xs: seq<Item>, rest: seq<Token>)
    requires OkItems(xs)
    ensures WordsIn(YieldItems(xs) + rest) == TreeWordsOf(ExecCmd(Words(xs))) + WordsIn(rest)
    ensures TreeFilesOf(c) + FilesIn(YieldItems(xs) + rest) == TreeFilesOf(Wrap(c, Redirs(xs))) + FilesIn(rest)
    decreases |xs|
  {
    hide YieldItems, YieldRedirs, OkRedirs, WordsIn, FilesIn, TreeWordsOf, TreeFilesOf, Wrap;
    YieldItemsRest(xs, rest);
    if xs == [] {
      WrapNone(c);
      ArgsMore(Span(0, 0), []);
      assert [] + WordsIn(rest) == WordsIn(rest);
    } else {
      var r := YieldItems(xs[1..]) + rest;
      ItemMarks(Wrap(c, xs[0].redirs), xs[1..], rest);
      RedirMarks(c, xs[0].redirs, r);
      WrapMore(c, xs[0].redirs, Redirs(xs[1..]));
      MarksMore(xs[0].word, YieldRedirs(xs[0].redirs) + r);
      ArgsMore(SpanOf(xs[0].word), Words(xs[1..]));
      assert [] + FilesIn(YieldRedirs(xs[0].redirs) + r) == FilesIn(YieldRedirs(xs[0].redirs) + r);
    }
  }

  lemma TreeMarks(l: Cmd, r: Cmd)
    ensures TreeWordsOf(PipeCmd(l, r)) == TreeWordsOf(l) + [Op('|')] + TreeWordsOf(r)
    ensures TreeFilesOf(PipeCmd(l, r)) == TreeFilesOf(l) + [Op('|')] + TreeFilesOf(r)
    ensures TreeWordsOf(ListCmd(l, r)) == TreeWordsOf(l) + [Op(';')] + TreeWordsOf(r)
    ensures TreeFilesOf(ListCmd(l, r)) == TreeFilesOf(l) + [Op(';')] + TreeFilesOf(r)
    ensures TreeWordsOf(BackCmd(l)) == TreeWordsOf(l) + [Op('&')] && TreeFilesOf(BackCmd(l)) == TreeFilesOf(l) + [Op('&')]
  {
  }

  lemma {:induction false} LineMarks(l: Line, rest: seq<Token>)
    requires OkLine(l)
    ensures WordsIn(YieldLine(l) + rest) == TreeWordsOf(LineTree(l)) + WordsIn(rest)
    ensures FilesIn(YieldLine(l) + rest) == TreeFilesOf(LineTree(l)) + FilesIn(rest)
    decreases l
  {
    hide YieldLine, YieldPipe, PipeTree, Backs, OkPipe, WordsIn, FilesIn, TreeWordsOf, TreeFilesOf;
    YieldLineRest(l, rest);
    var c := PipeTree(l.pipe);
    var tail := if l.more.Some? then [l.more.value.semi] + (YieldLine(l.more.value.line) + rest) else rest;
    PipeMarks(l.pipe, l.backs + tail);
    BackMarks(c, l.backs, tail);
    if l.more.Some? {
      LineMarks(l.more.value.line, rest);
      MarksMore(l.more.value.semi, YieldLine(l.more.value.line) + rest);
      TreeMarks(Backs(c, |l.backs|), LineTree(l.more.value.line));
    }
  }

  lemma {:induction false} BackMarks(c: Cmd, bs: seq<Token>, rest: seq<Token>)
    requires forall i :: 0 <= i < |bs| ==> bs[i].kind == '&'
    ensures TreeWordsOf(c) + WordsIn(bs + rest) == TreeWordsOf(Backs(c, |bs|)) + WordsIn(rest)
    ensures TreeFilesOf(c) + FilesIn(bs + rest) == TreeFilesOf(Backs(c, |bs|)) + FilesIn(rest)
    decreases |bs|
  {
    hide WordsIn, FilesIn, TreeWordsOf, TreeFilesOf;
    if bs == [] {
      assert bs + rest == rest;
    } else {
      BackMarks(BackCmd(c), bs[1..], rest);
      MarksMore(bs[0], bs[1..] + rest);
      TreeMarks(c, c);
      assert bs + rest == [bs[0]] + (bs[1..] + rest);
    }
  }

  lemma {:induction false} PipeMarks(p: Pipe, rest: seq<Token>)
    requires OkPipe(p)
    ensures WordsIn(YieldPipe(p) + rest) == TreeWordsOf(PipeTree(p)) + WordsIn(rest)
    ensures FilesIn(YieldPipe(p) + rest) == TreeFilesOf(PipeTree(p)) + FilesIn(rest)
    decreases p
  {
    hide YieldPipe, YieldExec, ExecTree, OkExec, WordsIn, FilesIn, TreeWordsOf, TreeFilesOf;
    YieldPipeRest(p, rest);
    var tail := if p.more.Some? then [p.more.value.bar] + (YieldPipe(p.more.value.pipe) + rest) else rest;
    ExecMarks(p.exec, tail);
    if p.more.Some? {
      PipeMarks(p.more.value.pipe, rest);
      MarksMore(p.more.value.bar, YieldPipe(p.more.value.pipe) + rest);
      TreeMarks(ExecTree(p.exec), PipeTree(p.more.value.pipe));
    }
  }

  lemma {:induction false} ExecMarks(x: Exec, rest: seq<Token>)
    requires OkExec(x)
    ensures WordsIn(YieldExec(x) + rest) == TreeWordsOf(ExecTree(x)) + WordsIn(rest)
    ensures FilesIn(YieldExec(x) + rest) == TreeFilesOf(ExecTree(x)) + FilesIn(rest)
    decreases x
  {
    hide YieldExec, YieldLine, YieldRedirs, YieldItems, LineTree, Wrap, Words, Redirs, OkLine, OkRedirs, OkItems,
         WordsIn, FilesIn,
         TreeWordsOf, TreeFilesOf;
    YieldExecRest(x, rest);
    match x
    case Block(open, line, close, redirs) =>
      var r1 := YieldRedirs(redirs) + rest;
      MarksMore(open, YieldLine(line) + ([close] + r1));
      MarksMore(close, r1);
      LineMarks(line, [close] + r1);
      RedirMarks(LineTree(line), redirs, rest);
    case Simple(redirs, items) =>
      var c := ExecCmd(Words(items));
      RedirMarks(c, redirs, YieldItems(items) + rest);
      ItemMarks(Wrap(c, redirs), items, rest);
      WrapMore(c, redirs, Redirs(items));
      WrapWordsOf(c, redirs + Redirs(items));
      NoFiles(c);
      var tail := YieldRedirs(redirs) + (YieldItems(items) + rest);
      assert [] + FilesIn(tail) == FilesIn(tail);
  }

  lemma NoFiles(c: Cmd)
    requires c.ExecCmd?
    ensures TreeFilesOf(c) == []
  {
  }

  lemma {:induction false} WrapWordsOf(c: Cmd, rs: seq<Redirect>)
    ensures TreeWordsOf(Wrap(c, rs)) == TreeWordsOf(c)
    decreases |rs|
  {
    if rs != [] {
      WrapWordsOf(Redirected(c, rs[0].op.kind, SpanOf(rs[0].file)), rs[1..]);
    }
  }

  // ---- the cursor ----

  method SkipSpaces(t: string, start: nat) returns (s: nat)
    requires start <= |t|
    ensures s == Skip(t, start)
  {
    s := start;
    while s < |t| && IsSpace(t[s])
      invariant start <= s <= |t| && Skip(t, start) == Skip(t, s)
    {
      s := s + 1;
    }
  }

  /** The next token, NUL at the end of the line, and the cursor behind it and the space that follows. */
  method GetToken(t: string, start: nat) returns (kind: char, q: nat, e: nat, s: nat)
    requires start <= |t|
    ensures s <= |t|
    ensures Lex(t, start) == [] ==> kind == NUL && s == |t|
    ensures Lex(t, start) != [] ==> Token(kind, q, e) == Lex(t, start)[0] && Lex(t, s) == Lex(t, start)[1..]
  {
    s := SkipSpaces(t, start);
    q := s;
    if s == |t| {
      return NUL, q, s, s;
    }
    kind := t[s];
    if kind == '|' || kind == '(' || kind == ')' || kind == ';' || kind == '&' || kind == '<' {
      s := s + 1;
    } else if kind == '>' {
      s := s + 1;
      if s < |t| && t[s] == '>' {
        kind := '+';
        s := s + 1;
      }
    } else {
      kind := 'a';
      while s < |t| && !IsSpace(t[s]) && !IsSymbol(t[s])
        invariant q <= s <= |t| && WordEnd(t, q) == WordEnd(t, s)
      {
        s := s + 1;
      }
    }
    e := s;
    assert Token(kind, q, e) == TokenAt(t, q);
    SkipTwice(t, e);
    s := SkipSpaces(t, s);
  }

  /** The character the next token starts with. */
  function First(t: string, s: nat): (c: char)
    requires s <= |t|
  {
    var q := Skip(t, s);
    if q < |t| then t[q] else NUL
  }

  lemma FirstKind(t: string, s: nat)
    requires s <= |t| && forall i :: 0 <= i < |t| ==> t[i] != NUL
    ensures Lex(t, s) == [] <==> First(t, s) == NUL
    ensures forall c :: IsSymbol(c) && c != '>' ==> (At(Lex(t, s), c) <==> First(t, s) == c)
    ensures AtRedir(Lex(t, s)) <==> First(t, s) == '<' || First(t, s) == '>'
  {
  }

  /** Moves the cursor to the next token and tests its first character. */
  method Peek(t: string, start: nat, toks: string) returns (found: bool, s: nat)
    requires start <= |t|
    ensures s == Skip(t, start) && Lex(t, s) == Lex(t, start) && First(t, s) == First(t, start)
    ensures found <==> First(t, start) != NUL && First(t, start) in toks
  {
    s := SkipSpaces(t, start);
    SkipTwice(t, start);
    found := s < |t| && t[s] != NUL && t[s] in toks;
  }

  // ---- the parser ----

  /** r is the tree c, with the cursor in front of the tokens rest. */
  ghost predicate Gives(t: string, r: Result, c: Cmd, rest: seq<Token>) {
    r.Ok? && r.cmd == c && r.s <= |t| && Lex(t, r.s) == rest
  }

  /** The parser's result r is that of the descent over the tokens, p: an error exactly when p fails, and
      otherwise the tree of what p found and the cursor in front of what p left. */
  ghost predicate LineAgrees(t: string, p: Parse<Line>, r: Result) {
    match p
    case Fail => r.Error?
    case Got(l, rest) => Gives(t, r, LineTree(l), rest)
  }

  ghost predicate PipeAgrees(t: string, p: Parse<Pipe>, r: Result) {
    match p
    case Fail => r.Error?
    case Got(x, rest) => Gives(t, r, PipeTree(x), rest)
  }

  ghost predicate ExecAgrees(t: string, p: Parse<Exec>, r: Result) {
    match p
    case Fail => r.Error?
    case Got(x, rest) => Gives(t, r, ExecTree(x), rest)
  }

  /** Words, operators and redirections of the command, left before right, are those of the text that it takes up. */
  ghost predicate InOrder(t: string, start: nat, r: Result)
    requires start <= |t|
  {
    r.Ok? ==>
      && r.s <= |t|
      && TreeWordsOf(r.cmd) + WordsIn(Lex(t, r.s)) == WordsIn(Lex(t, start))
      && TreeFilesOf(r.cmd) + FilesIn(Lex(t, r.s)) == FilesIn(Lex(t, start))
  }

  lemma LineInOrder(t: string, start: nat, r: Result)
    requires start <= |t| && LineAgrees(t, PLine(Lex(t, start)), r)
    ensures InOrder(t, start, r)
  {
    hide PLine, Lex, LineTree, YieldLine, OkLine, WordsIn, FilesIn, TreeWordsOf, TreeFilesOf;
    var ts := Lex(t, start);
    if PLine(ts).Got? {
      LineSound(ts);
      LineMarks(PLine(ts).v, PLine(ts).rest);
    }
  }

  lemma PipeInOrder(t: string, start: nat, r: Result)
    requires start <= |t| && PipeAgrees(t, PPipe(Lex(t, start)), r)
    ensures InOrder(t, start, r)
  {
    hide PPipe, Lex, PipeTree, YieldPipe, OkPipe, WordsIn, FilesIn, TreeWordsOf, TreeFilesOf;
    var ts := Lex(t, start);
    if PPipe(ts).Got? {
      PipeSound(ts);
      PipeMarks(PPipe(ts).v, PPipe(ts).rest);
    }
  }

  lemma ExecInOrder(t: string, start: nat, r: Result)
    requires start <= |t| && ExecAgrees(t, PExec(Lex(t, start)), r)
    ensures InOrder(t, start, r)
  {
    hide PExec, Lex, ExecTree, YieldExec, OkExec, WordsIn, FilesIn, TreeWordsOf, TreeFilesOf;
    var ts := Lex(t, start);
    if PExec(ts).Got? {
      ExecSound(ts);
      ExecMarks(PExec(ts).v, PExec(ts).rest);
    }
  }

  /** The same for redirections around a command cmd. */
  ghost predicate RedirsAgree(t: string, p: Parse<seq<Redirect>>, cmd: Cmd, r: Result) {
    match p
    case Fail => r.Error?
    case Got(rs, rest) => Gives(t, r, Wrap(cmd, rs), rest)
  }

  /** The same for the words of a command that began with the redirections rs. */
  ghost predicate ItemsAgree(t: string, p: Parse<seq<Item>>, rs: seq<Redirect>, r: Result) {
    match p
    case Fail => r.Error?
    case Got(xs, rest) => Gives(t, r, Partial(rs, xs), rest)
  }

  lemma {:induction false} WrapMore(c: Cmd, rs: seq<Redirect>, more: seq<Redirect>)
    ensures Wrap(Wrap(c, rs), more) == Wrap(c, rs + more)
    decreases |rs|
  {
    if rs == [] {
      assert rs + more == more;
    } else {
      WrapMore(Redirected(c, rs[0].op.kind, SpanOf(rs[0].file)), rs[1..], more);
      assert (rs + more)[1..] == rs[1..] + more;
    }
  }

  /** What was parsed in front of p. */
  function Before<T>(done: seq<T>, p: Parse<seq<T>>): (r: Parse<seq<T>>) {
    match p
    case Fail => Fail
    case Got(v, rest) => Got(done + v, rest)
  }

  method ParseRedirs(cmd: Cmd, t: string, start: nat) returns (r: Result)
    requires start <= |t| && forall i :: 0 <= i < |t| ==> t[i] != NUL
    ensures RedirsAgree(t, PRedirs(Lex(t, start)), cmd, r)
  {
    hide PRedirs, Lex, First, Wrap;
    var c, s: nat := cmd, start;
    ghost var done: seq<Redirect> := [];
    WrapNone(cmd);
    BeforeNone(PRedirs(Lex(t, start)));
    while true
      invariant s <= |t| && c == Wrap(cmd, done)
      invariant PRedirs(Lex(t, start)) == Before(done, PRedirs(Lex(t, s)))
      decreases |Lex(t, s)|
    {
      var more;
      more, s := Peek(t, s, "<>");
      ghost var ts := Lex(t, s);
      FirstKind(t, s);
      RedirsIs(ts);
      if !more {
        assert done + [] == done;
        return Ok(c, s);
      }
      var op, _, _, s1 := GetToken(t, s);
      var kind, q, e, s2 := GetToken(t, s1);
      if kind != 'a' {
        return Error;
      }
      c := Redirected(c, op, Span(q, e));
      WrapOne(cmd, done, Redirect(ts[0], ts[1]));
      BeforeMore(done, [Redirect(ts[0], ts[1])], PRedirs(ts[2..]));
      done := done + [Redirect(ts[0], ts[1])];
      s := s2;
      assert Lex(t, s) == ts[2..];
    }
  }

  lemma WrapNone(c: Cmd)
    ensures Wrap(c, []) == c
  {
  }

  lemma WrapOne(c: Cmd, rs: seq<Redirect>, x: Redirect)
    ensures Wrap(c, rs + [x]) == Redirected(Wrap(c, rs), x.op.kind, SpanOf(x.file))
  {
    WrapMore(c, rs, [x]);
    assert [x][1..] == [];
  }

  lemma BeforeNone<T>(p: Parse<seq<T>>)
    ensures Before([], p) == p
  {
    assert p.Got? ==> [] + p.v == p.v;
  }

  lemma BeforeMore<T>(a: seq<T>, b: seq<T>, p: Parse<seq<T>>)
    ensures Before(a, Before(b, p)) == Before(a + b, p)
  {
    assert p.Got? ==> a + (b + p.v) == a + b + p.v;
  }

  /** argv[argc] of the innermost command: the EXEC node under the redirections. */
  function AddArg(c: Cmd, w: Span): (r: Cmd) {
    match c
    case ExecCmd(argv) => ExecCmd(argv + [w])
    case RedirCmd(d, file, mode, fd) => RedirCmd(AddArg(d, w), file, mode, fd)
    case _ => c
  }

  lemma {:induction false} AddArgWrap(c: Cmd, rs: seq<Redirect>, w: Span)
    ensures AddArg(Wrap(c, rs), w) == Wrap(AddArg(c, w), rs)
    decreases |rs|
  {
    if rs != [] {
      AddArgWrap(Redirected(c, rs[0].op.kind, SpanOf(rs[0].file)), rs[1..], w);
    }
  }

  lemma {:induction false} WordsMore(xs: seq<Item>, x: Item)
    ensures Words(xs + [x]) == Words(xs) + [SpanOf(x.word)] && Redirs(xs + [x]) == Redirs(xs) + x.redirs
    decreases |xs|
  {
    hide SpanOf;
    if xs == [] {
      assert xs + [x] == [x] && [x][1..] == [];
    } else {
      WordsMore(xs[1..], x);
      assert (xs + [x])[1..] == xs[1..] + [x];
    }
  }

  /** The tree of an exec whose items so far are xs. */
  function Partial(rs: seq<Redirect>, xs: seq<Item>): (c: Cmd) {
    Wrap(ExecCmd(Words(xs)), rs + Redirs(xs))
  }

  /** One more word and its redirections. */
  lemma PartialMore(rs: seq<Redirect>, xs: seq<Item>, x: Item)
    ensures Wrap(AddArg(Partial(rs, xs), SpanOf(x.word)), x.redirs) == Partial(rs, xs + [x])
  {
    hide Wrap, Words, Redirs;
    AddArgWrap(ExecCmd(Words(xs)), rs + Redirs(xs), SpanOf(x.word));
    WordsMore(xs, x);
    WrapMore(ExecCmd(Words(xs) + [SpanOf(x.word)]), rs + Redirs(xs), x.redirs);
    assert rs + Redirs(xs) + x.redirs == rs + (Redirs(xs) + x.redirs);
  }

  /** parseexec's loop over the words, ret being the tree so far. */
  method ParseItems(ret: Cmd, ghost rs: seq<Redirect>, t: string, start: nat) returns (r: Result)
    requires start <= |t| && ret == Partial(rs, []) && forall i :: 0 <= i < |t| ==> t[i] != NUL
    ensures ItemsAgree(t, PItems(Lex(t, start), 0), rs, r)
  {
    hide PItems, PRedirs, Lex, First, Partial, AddArg, Wrap;
    var c, s: nat, argc: nat := ret, start, 0;
    ghost var done: seq<Item> := [];
    BeforeNone(PItems(Lex(t, start), 0));
    while true
      invariant s <= |t| && argc == |done| < MAXARGS && c == Partial(rs, done)
      invariant PItems(Lex(t, start), 0) == Before(done, PItems(Lex(t, s), argc))
      decreases |Lex(t, s)|
    {
      var stop;
      stop, s := Peek(t, s, "|)&;");
      ghost var ts := Lex(t, s);
      FirstKind(t, s);
      ItemsIs(ts, argc);
      if stop {
        assert done + [] == done;
        return Ok(c, s);
      }
      var kind, q, e, s1 := GetToken(t, s);
      if kind == NUL {
        LexKinds(t, s);
        assert done + [] == done;
        return Ok(c, s1);
      }
      LexKinds(t, s);
      if kind != 'a' {
        return Error;
      }
      argc := argc + 1;
      if argc >= MAXARGS {
        return Error;
      }
      var next := ParseRedirs(AddArg(c, Span(q, e)), t, s1);
      if next.Error? {
        return Error;
      }
      ghost var x := Item(ts[0], PRedirs(ts[1..]).v);
      PartialMore(rs, done, x);
      BeforeMore(done, [x], PItems(Lex(t, next.s), argc));
      c, s, done := next.cmd, next.s, done + [x];
    }
  }

  lemma LexKinds(t: string, s: nat)
    requires s <= |t| && forall i :: 0 <= i < |t| ==> t[i] != NUL
    ensures Lex(t, s) != [] ==> Lex(t, s)[0].kind != NUL
    ensures Lex(t, |t|) == []
  {
  }

  method ParseExec(t: string, start: nat) returns (r: Result)
    requires start <= |t| && forall i :: 0 <= i < |t| ==> t[i] != NUL
    ensures ExecAgrees(t, PExec(Lex(t, start)), r) && InOrder(t, start, r)
    decreases |Lex(t, start)|, 1
  {
    hide PExec, PRedirs, PItems, Lex, First, Wrap, Words, Redirs, LineTree, InOrder;
    var block, s := Peek(t, start, "(");
    FirstKind(t, s);
    if block {
      r := ParseBlock(t, s);
      ExecInOrder(t, start, r);
      return;
    }
    SimpleIs(Lex(t, s));
    r := ParseRedirs(ExecCmd([]), t, s);
    if r.Error? {
      ExecInOrder(t, start, r);
      return;
    }
    ghost var rs := PRedirs(Lex(t, s)).v;
    PartialNone(rs);
    r := ParseItems(r.cmd, rs, t, r.s);
    ExecInOrder(t, start, r);
  }

  lemma PartialNone(rs: seq<Redirect>)
    ensures Partial(rs, []) == Wrap(ExecCmd([]), rs)
  {
    assert rs + [] == rs;
  }

  method ParseBlock(t: string, start: nat) returns (r: Result)
    requires start <= |t| && At(Lex(t, start), '(') && forall i :: 0 <= i < |t| ==> t[i] != NUL
    ensures ExecAgrees(t, PExec(Lex(t, start)), r) && InOrder(t, start, r)
    decreases |Lex(t, start)|, 0
  {
    hide PExec, PLine, PRedirs, Lex, First, Wrap, LineTree, InOrder;
    BlockIs(Lex(t, start));
    var _, _, _, s := GetToken(t, start);
    r := ParseLine(t, s);
    if r.Error? {
      ExecInOrder(t, start, r);
      return;
    }
    var c, s1 := r.cmd, r.s;
    var close;
    close, s1 := Peek(t, s1, ")");
    FirstKind(t, s1);
    if !close {
      ExecInOrder(t, start, Error);
      return Error;
    }
    var _, _, _, s2 := GetToken(t, s1);
    r := ParseRedirs(c, t, s2);
    ExecInOrder(t, start, r);
  }

  method ParsePipe(t: string, start: nat) returns (r: Result)
    requires start <= |t| && forall i :: 0 <= i < |t| ==> t[i] != NUL
    ensures PipeAgrees(t, PPipe(Lex(t, start)), r) && InOrder(t, start, r)
    decreases |Lex(t, start)|, 2
  {
    hide PPipe, PExec, Lex, First, ExecTree, InOrder;
    PipeIs(Lex(t, start));
    r := ParseExec(t, start);
    if r.Error? {
      PipeInOrder(t, start, r);
      return;
    }
    var c := r.cmd;
    var bar, s := Peek(t, r.s, "|");
    FirstKind(t, s);
    if !bar {
      PipeInOrder(t, start, Ok(c, s));
      return Ok(c, s);
    }
    var _, _, _, s1 := GetToken(t, s);
    r := ParsePipe(t, s1);
    if r.Ok? {
      r := Ok(PipeCmd(c, r.cmd), r.s);
    }
    PipeInOrder(t, start, r);
  }

  /** parseline's loop over the &s. */
  method ParseBacks(cmd: Cmd, t: string, start: nat) returns (c: Cmd, s: nat)
    requires start <= |t| && forall i :: 0 <= i < |t| ==> t[i] != NUL
    ensures s <= |t| && c == Backs(cmd, |PBacks(Lex(t, start)).0|) && Lex(t, s) == PBacks(Lex(t, start)).1
  {
    hide Lex, First, Backs;
    c, s := cmd, start;
    ghost var n := 0;
    BacksMore(cmd, 0);
    while true
      invariant s <= |t| && c == Backs(cmd, n)
      invariant n + |PBacks(Lex(t, s)).0| == |PBacks(Lex(t, start)).0| && PBacks(Lex(t, s)).1 == PBacks(Lex(t, start)).1
      decreases |Lex(t, s)|
    {
      var more;
      more, s := Peek(t, s, "&");
      FirstKind(t, s);
      if !more {
        return;
      }
      var _, _, _, s1 := GetToken(t, s);
      BacksMore(cmd, n);
      s, c, n := s1, BackCmd(c), n + 1;
    }
  }

  lemma {:induction false} BacksMore(c: Cmd, n: nat)
    ensures Backs(c, 0) == c && Backs(c, n + 1) == BackCmd(Backs(c, n))
    decreases n
  {
    if n > 0 {
      BacksMore(BackCmd(c), n - 1);
    }
  }

  method ParseLine(t: string, start: nat) returns (r: Result)
    requires start <= |t| && forall i :: 0 <= i < |t| ==> t[i] != NUL
    ensures LineAgrees(t, PLine(Lex(t, start)), r) && InOrder(t, start, r)
    decreases |Lex(t, start)|, 3
  {
    hide PLine, PPipe, PBacks, Lex, First, PipeTree, Backs, InOrder;
    LineIs(Lex(t, start));
    r := ParsePipe(t, start);
    if r.Error? {
      LineInOrder(t, start, r);
      return;
    }
    var c, s := ParseBacks(r.cmd, t, r.s);
    var semi;
    semi, s := Peek(t, s, ";");
    FirstKind(t, s);
    if !semi {
      LineInOrder(t, start, Ok(c, s));
      return Ok(c, s);
    }
    var _, _, _, s1 := GetToken(t, s);
    r := ParseLine(t, s1);
    if r.Ok? {
      r := Ok(ListCmd(c, r.cmd), r.s);
    }
    LineInOrder(t, start, r);
  }

  // ---- making strings of the words ----

  /** All the words and file names of a command. */
  function Spans(c: Cmd): (r: set<Span>) {
    match c
    case ExecCmd(argv) => set i | 0 <= i < |argv| :: argv[i]
    case RedirCmd(d, file, _, _) => Spans(d) + {file}
    case PipeCmd(l, r) => Spans(l) + Spans(r)
    case ListCmd(l, r) => Spans(l) + Spans(r)
    case BackCmd(d) => Spans(d)
  }

  /** b with a NUL at the end of each of the spans. */
  ghost predicate Ended(b: seq<char>, b': seq<char>, spans: set<Span>) {
    && |b'| == |b|
    && (forall i :: 0 <= i < |b| && b'[i] != b[i] ==> b'[i] == NUL && exists x :: x in spans && x.e == i)
    && (forall x :: x in spans && x.e < |b| ==> b'[x.e] == NUL)
  }

  lemma EndedTrans(a: seq<char>, b: seq<char>, c: seq<char>, x: set<Span>, y: set<Span>)
    requires Ended(a, b, x) && Ended(b, c, y)
    ensures Ended(a, c, x + y)
  {
    forall i | 0 <= i < |a| && c[i] != a[i]
      ensures c[i] == NUL && exists z :: z in x + y && z.e == i
    {
      if c[i] != b[i] {
        var z :| z in y && z.e == i;
        assert z in x + y;
      } else {
        var z :| z in x && z.e == i;
        assert z in x + y;
      }
    }
  }

  lemma EndedOne(a: seq<char>, x: Span)
    requires x.e < |a|
    ensures Ended(a, a[x.e := NUL], {x})
  {
    assert x in {x};
  }

  /** Writes a NUL behind every word of the command, in place. */
  method NulTerminate(c: Cmd, buf: array<char>)
    requires forall x :: x in Spans(c) ==> x.e < buf.Length
    modifies buf
    ensures Ended(old(buf[..]), buf[..], Spans(c))
    decreases c
  {
    hide Ended;
    match c
    case ExecCmd(argv) =>
      NulWords(argv, buf);
    case RedirCmd(d, file, _, _) =>
      NulTerminate(d, buf);
      ghost var mid := buf[..];
      EndedOne(mid, file);
      buf[file.e] := NUL;
      assert buf[..] == mid[file.e := NUL];
      EndedTrans(old(buf[..]), mid, buf[..], Spans(d), {file});
    case PipeCmd(l, r) =>
      NulTerminate(l, buf);
      ghost var mid := buf[..];
      NulTerminate(r, buf);
      EndedTrans(old(buf[..]), mid, buf[..], Spans(l), Spans(r));
    case ListCmd(l, r) =>
      NulTerminate(l, buf);
      ghost var mid := buf[..];
      NulTerminate(r, buf);
      EndedTrans(old(buf[..]), mid, buf[..], Spans(l), Spans(r));
    case BackCmd(d) =>
      NulTerminate(d, buf);
  }

  method NulWords(argv: seq<Span>, buf: array<char>)
    requires forall i :: 0 <= i < |argv| ==> argv[i].e < buf.Length
    modifies buf
    ensures Ended(old(buf[..]), buf[..], set i | 0 <= i < |argv| :: argv[i])
  {
    var i := 0;
    ghost var seen: set<Span> := {};
    while i < |argv|
      invariant 0 <= i <= |argv| && seen == (set j | 0 <= j < i :: argv[j])
      invariant Ended(old(buf[..]), buf[..], seen)
    {
      ghost var mid := buf[..];
      EndedOne(mid, argv[i]);
      buf[argv[i].e] := NUL;
      assert buf[..] == mid[argv[i].e := NUL];
      EndedTrans(old(buf[..]), mid, buf[..], seen, {argv[i]});
      assert (set j | 0 <= j < i + 1 :: argv[j]) == seen + {argv[i]};
      seen := seen + {argv[i]};
      i := i + 1;
    }
  }

  /** The C string at q. */
  function CString(b: seq<char>, q: nat): (r: string)
    requires q <= |b|
    decreases |b| - q
  {
    if q < |b| && b[q] != NUL then [b[q]] + CString(b, q + 1) else ""
  }

  lemma {:induction false} CStringIs(b: seq<char>, q: nat, e: nat)
    requires q <= e < |b| && b[e] == NUL && forall i :: q <= i < e ==> b[i] != NUL
    ensures CString(b, q) == b[q..e]
    decreases e - q
  {
    if q < e {
      CStringIs(b, q + 1, e);
    }
  }

  // ---- every span of the tree is a word of the line ----

  predicate WordSpan(t: string, x: Span) {
    IsWord(t, Token('a', x.q, x.e))
  }

  ghost predicate AllWords(t: string, ts: seq<Token>) {
    forall i :: 0 <= i < |ts| && ts[i].kind == 'a' ==> IsWord(t, ts[i])
  }

  lemma AllWordsSplit(t: string, a: seq<Token>, b: seq<Token>)
    requires AllWords(t, a + b)
    ensures AllWords(t, a) && AllWords(t, b)
  {
    forall i | 0 <= i < |a| && a[i].kind == 'a'
      ensures IsWord(t, a[i])
    {
      assert (a + b)[i] == a[i];
    }
    forall i | 0 <= i < |b| && b[i].kind == 'a'
      ensures IsWord(t, b[i])
    {
      assert (a + b)[|a| + i] == b[i];
    }
  }

  ghost predicate TreeWords(t: string, c: Cmd) {
    forall x :: x in Spans(c) ==> WordSpan(t, x)
  }

  lemma {:induction false} WrapWords(t: string, c: Cmd, rs: seq<Redirect>)
    requires TreeWords(t, c) && OkRedirs(rs) && AllWords(t, YieldRedirs(rs))
    ensures TreeWords(t, Wrap(c, rs))
    decreases |rs|
  {
    if rs != [] {
      assert YieldRedirs(rs)[1] == rs[0].file;
      AllWordsSplit(t, [rs[0].op, rs[0].file], YieldRedirs(rs[1..]));
      WrapWords(t, Redirected(c, rs[0].op.kind, SpanOf(rs[0].file)), rs[1..]);
    }
  }

  lemma {:induction false} BacksWords(t: string, c: Cmd, n: nat)
    requires TreeWords(t, c)
    ensures TreeWords(t, Backs(c, n))
    decreases n
  {
    if n > 0 {
      BacksWords(t, BackCmd(c), n - 1);
    }
  }

  lemma {:induction false} ItemWords(t: string, xs: seq<Item>)
    requires OkItems(xs) && AllWords(t, YieldItems(xs))
    ensures forall i :: 0 <= i < |Words(xs)| ==> WordSpan(t, Words(xs)[i])
    ensures OkRedirs(Redirs(xs)) && AllWords(t, YieldRedirs(Redirs(xs)))
    decreases |xs|
  {
    hide IsWord, AllWords, YieldRedirs, OkRedirs;
    if xs == [] {
      NoRedirs(t);
    } else {
      AllWordsSplit(t, [xs[0].word] + YieldRedirs(xs[0].redirs), YieldItems(xs[1..]));
      AllWordsSplit(t, [xs[0].word], YieldRedirs(xs[0].redirs));
      AllWordsOne(t, xs[0].word);
      ItemWords(t, xs[1..]);
      OkRedirsJoin(xs[0].redirs, Redirs(xs[1..]));
      YieldRedirsJoin(xs[0].redirs, Redirs(xs[1..]));
      AllWordsJoin(t, YieldRedirs(xs[0].redirs), YieldRedirs(Redirs(xs[1..])));
    }
  }

  lemma NoRedirs(t: string)
    ensures AllWords(t, YieldRedirs([])) && OkRedirs([])
  {
  }

  lemma OkRedirsJoin(a: seq<Redirect>, b: seq<Redirect>)
    requires OkRedirs(a) && OkRedirs(b)
    ensures OkRedirs(a + b)
  {
  }

  lemma AllWordsOne(t: string, k: Token)
    requires AllWords(t, [k]) && k.kind == 'a'
    ensures IsWord(t, k)
  {
    assert [k][0] == k;
  }

  lemma AllWordsJoin(t: string, a: seq<Token>, b: seq<Token>)
    requires AllWords(t, a) && AllWords(t, b)
    ensures AllWords(t, a + b)
  {
  }

  lemma {:induction false} YieldRedirsJoin(a: seq<Redirect>, b: seq<Redirect>)
    ensures YieldRedirs(a + b) == YieldRedirs(a) + YieldRedirs(b)
    decreases |a|
  {
    if a == [] {
      assert a + b == b;
    } else {
      YieldRedirsJoin(a[1..], b);
      assert (a + b)[1..] == a[1..] + b;
    }
  }

  lemma {:induction false} LineWords(t: string, l: Line)
    requires OkLine(l) && AllWords(t, YieldLine(l))
    ensures TreeWords(t, LineTree(l))
    decreases l
  {
    hide AllWords, WordSpan, YieldPipe, PipeTree, Backs, OkPipe;
    var tail := if l.more.Some? then [l.more.value.semi] + YieldLine(l.more.value.line) else [];
    assert YieldLine(l) == YieldPipe(l.pipe) + (l.backs + tail);
    AllWordsSplit(t, YieldPipe(l.pipe), l.backs + tail);
    AllWordsSplit(t, l.backs, tail);
    PipeWords(t, l.pipe);
    BacksWords(t, PipeTree(l.pipe), |l.backs|);
    if l.more.Some? {
      AllWordsSplit(t, [l.more.value.semi], YieldLine(l.more.value.line));
      LineWords(t, l.more.value.line);
    }
  }

  lemma {:induction false} PipeWords(t: string, p: Pipe)
    requires OkPipe(p) && AllWords(t, YieldPipe(p))
    ensures TreeWords(t, PipeTree(p))
    decreases p
  {
    hide AllWords, WordSpan, YieldExec, ExecTree, OkExec;
    var tail := if p.more.Some? then [p.more.value.bar] + YieldPipe(p.more.value.pipe) else [];
    AllWordsSplit(t, YieldExec(p.exec), tail);
    ExecWords(t, p.exec);
    if p.more.Some? {
      AllWordsSplit(t, [p.more.value.bar], YieldPipe(p.more.value.pipe));
      PipeWords(t, p.more.value.pipe);
    }
  }

  lemma {:induction false} ExecWords(t: string, x: Exec)
    requires OkExec(x) && AllWords(t, YieldExec(x))
    ensures TreeWords(t, ExecTree(x))
    decreases x
  {
    hide AllWords, WordSpan, YieldLine, YieldRedirs, YieldItems, LineTree, Wrap, OkLine, Words, Redirs;
    match x
    case Block(open, line, close, redirs) =>
      assert YieldExec(x) == [open] + (YieldLine(line) + ([close] + YieldRedirs(redirs)));
      AllWordsSplit(t, [open], YieldLine(line) + ([close] + YieldRedirs(redirs)));
      AllWordsSplit(t, YieldLine(line), [close] + YieldRedirs(redirs));
      AllWordsSplit(t, [close], YieldRedirs(redirs));
      LineWords(t, line);
      WrapWords(t, LineTree(line), redirs);
    case Simple(redirs, items) =>
      AllWordsSplit(t, YieldRedirs(redirs), YieldItems(items));
      ItemWords(t, items);
      YieldRedirsJoin(redirs, Redirs(items));
      AllWordsJoin(t, YieldRedirs(redirs), YieldRedirs(Redirs(items)));
      WrapWords(t, ExecCmd(Words(items)), redirs + Redirs(items));
  }

  // ---- the whole line ----

  /** The line is one of the grammar's. */
  ghost predicate InGrammar(t: string) {
    exists l :: OkLine(l) && YieldLine(l) == Lex(t, 0)
  }

  /** c is the tree of the line. */
  ghost predicate IsTree(t: string, c: Cmd) {
    exists l :: OkLine(l) && YieldLine(l) == Lex(t, 0) && c == LineTree(l)
  }

  /** A line has at most one tree. */
  lemma OneTree(t: string, c: Cmd, d: Cmd)
    requires IsTree(t, c) && IsTree(t, d)
    ensures c == d
  {
    var k :| OkLine(k) && YieldLine(k) == Lex(t, 0) && c == LineTree(k);
    var l :| OkLine(l) && YieldLine(l) == Lex(t, 0) && d == LineTree(l);
    Unambiguous(k, l);
  }

  /** No word end lies inside a word, so ending all words leaves each one whole. */
  lemma WordsSurvive(t: string, b: seq<char>, c: Cmd, x: Span)
    requires forall i :: 0 <= i < |t| ==> t[i] != NUL
    requires TreeWords(t, c) && Ended(t + [NUL], b, Spans(c)) && x in Spans(c)
    ensures x.q <= x.e <= |t| && x.q <= |b| && CString(b, x.q) == t[x.q..x.e]
  {
    assert WordSpan(t, x);
    forall i | x.q <= i < x.e
      ensures b[i] == t[i]
    {
      assert (t + [NUL])[i] == t[i];
    }
    CStringIs(b, x.q, x.e);
    assert b[x.q..x.e] == t[x.q..x.e];
  }

  /** Parses the C string t in buf. The result is its tree, or an error if the grammar does not have it;
      afterwards every word and file name of the tree is a C string of its own in buf. */
  method ParseCmd(buf: array<char>, ghost t: string) returns (r: Result)
    requires buf[..] == t + [NUL] && forall i :: 0 <= i < |t| ==> t[i] != NUL
    modifies buf
    ensures r.Ok? <==> InGrammar(t)
    ensures r.Error? ==> buf[..] == t + [NUL]
    ensures r.Ok? ==> IsTree(t, r.cmd)
    ensures r.Ok? ==> TreeWordsOf(r.cmd) == WordsIn(Lex(t, 0)) && TreeFilesOf(r.cmd) == FilesIn(Lex(t, 0))
    ensures r.Ok? ==> forall x :: x in Spans(r.cmd) ==>
      x.q <= x.e <= |t| && x.q <= buf.Length && CString(buf[..], x.q) == t[x.q..x.e]
  {
    hide PLine, YieldLine, OkLine, LineTree, Lex, Ended, TreeWords, WordsIn, FilesIn, TreeWordsOf, TreeFilesOf;
    var n := Strlen(buf, t);
    var text := buf[..n];
    assert text == t;
    r := ParseLine(text, 0);
    ghost var ts := Lex(t, 0);
    if r.Error? {
      Refused(t);
      return;
    }
    var _, s := Peek(text, r.s, "");
    ghost var l := PLine(ts).v;
    AcceptsGrammar(ts, l);
    FirstKind(t, s);
    EndOfLex(t, s);
    if s != n {
      Refused(t);
      return Error;
    }
    TreeOfWords(t, l);
    SameMarks(l, ts);
    NulTerminate(r.cmd, buf) by { SpansInside(t, r.cmd); }
    forall x | x in Spans(r.cmd)
      ensures x.q <= x.e <= |t| && x.q <= buf.Length && CString(buf[..], x.q) == t[x.q..x.e]
    {
      WordsSurvive(t, buf[..], r.cmd, x);
    }
  }

  lemma SameMarks(l: Line, ts: seq<Token>)
    requires OkLine(l) && YieldLine(l) == ts
    ensures TreeWordsOf(LineTree(l)) == WordsIn(ts) && TreeFilesOf(LineTree(l)) == FilesIn(ts)
  {
    hide OkLine, YieldLine, LineTree, TreeWordsOf, TreeFilesOf;
    LineMarks(l, []);
    assert ts + [] == ts;
    assert TreeWordsOf(LineTree(l)) + [] == TreeWordsOf(LineTree(l));
    assert TreeFilesOf(LineTree(l)) + [] == TreeFilesOf(LineTree(l));
  }

  method Strlen(buf: array<char>, ghost t: string) returns (n: nat)
    requires buf[..] == t + [NUL] && forall i :: 0 <= i < |t| ==> t[i] != NUL
    ensures n == |t| && buf.Length == n + 1 && buf[..n] == t
  {
    n := 0;
    assert forall i :: 0 <= i < buf.Length ==> buf[i] == buf[..][i];
    while buf[n] != NUL
      invariant 0 <= n <= |t| && buf.Length == |t| + 1
      decreases |t| - n
    {
      n := n + 1;
    }
  }

  lemma Refused(t: string)
    requires PLine(Lex(t, 0)).Fail? || PLine(Lex(t, 0)).rest != []
    ensures !InGrammar(t)
  {
    if l :| OkLine(l) && YieldLine(l) == Lex(t, 0) {
      AcceptsGrammar(Lex(t, 0), l);
    }
  }

  lemma EndOfLex(t: string, s: nat)
    requires s <= |t| && s == Skip(t, s)
    ensures Lex(t, s) == [] <==> s == |t|
  {
  }

  lemma TreeOfWords(t: string, l: Line)
    requires OkLine(l) && YieldLine(l) == Lex(t, 0)
    ensures TreeWords(t, LineTree(l))
  {
    hide IsWord, OkLine, LineTree, YieldLine, TreeWords, Lex;
    forall i | 0 <= i < |Lex(t, 0)| && Lex(t, 0)[i].kind == 'a'
      ensures IsWord(t, Lex(t, 0)[i])
    {
      LexWords(t, 0, i);
    }
    LineWords(t, l);
  }

  lemma SpansInside(t: string, c: Cmd)
    requires TreeWords(t, c)
    ensures forall x :: x in Spans(c) ==> x.e < |t| + 1
  {
    forall x | x in Spans(c)
      ensures x.e < |t| + 1
    {
      assert WordSpan(t, x);
    }
  }
}
