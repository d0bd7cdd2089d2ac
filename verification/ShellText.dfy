/** Command trees written out again: every tree is the tree of some line. */
module ShellText {
  import opened Common
  import opened ShellSyntax
  import opened Shell

  /** Trees that can be written: fewer than MAXARGS words in a command, and redirections of the three kinds. */
  predicate Writable(c: Cmd) {
    match c
    case ExecCmd(argv) => |argv| < MAXARGS
    case RedirCmd(d, _, mode, fd) => Writable(d) && OpOf(mode, fd) != '?'
    case PipeCmd(l, r) => Writable(l) && Writable(r)
    case ListCmd(l, r) => Writable(l) && Writable(r)
    case BackCmd(d) => Writable(d)
  }

  function Sign(c: char): (k: Token) {
    Token(c, 0, 0)
  }

  function WordToken(x: Span): (k: Token) {
    Token('a', x.q, x.e)
  }

  function WordTokens(xs: seq<Span>): (ts: seq<Token>) {
    if xs == [] then [] else [WordToken(xs[0])] + WordTokens(xs[1..])
  }

  /** A pipe, a list or a command in the background, without parentheses around it. */
  function Bare(c: Cmd): (ts: seq<Token>)
    requires c.PipeCmd? || c.ListCmd? || c.BackCmd?
    decreases c, 0
  {
    match c
    case PipeCmd(l, r) => Single(l) + [Sign('|')] + (if r.PipeCmd? then Bare(r) else Single(r))
    case ListCmd(l, r) => Job(l) + [Sign(';')] + Whole(r)
    case BackCmd(d) => Job(d) + [Sign('&')]
  }

  /** As part of a pipe: anything but a command with redirections is put in parentheses. */
  function Single(c: Cmd): (ts: seq<Token>)
    decreases c, 1
  {
    match c
    case ExecCmd(argv) => WordTokens(argv)
    case RedirCmd(d, file, mode, fd) => Single(d) + [Sign(OpOf(mode, fd)), WordToken(file)]
    case _ => [Sign('(')] + Bare(c) + [Sign(')')]
  }

  /** In front of ; or &. */
  function Job(c: Cmd): (ts: seq<Token>)
    decreases c, 2
  {
    if c.PipeCmd? || c.BackCmd? then Bare(c) else Single(c)
  }

  /** As a line. */
  function Whole(c: Cmd): (ts: seq<Token>)
    decreases c, 3
  {
    if c.PipeCmd? || c.BackCmd? || c.ListCmd? then Bare(c) else Single(c)
  }

  // ---- derivations of these ----

  function Items(xs: seq<Span>): (items: seq<Item>) {
    if xs == [] then [] else [Item(WordToken(xs[0]), [])] + Items(xs[1..])
  }

  lemma {:induction false} ItemsAre(xs: seq<Span>)
    ensures OkItems(Items(xs)) && |Items(xs)| == |xs| && YieldItems(Items(xs)) == WordTokens(xs)
    ensures Words(Items(xs)) == xs && Redirs(Items(xs)) == []
  {
    if xs != [] {
      ItemsAre(xs[1..]);
      var rest := Items(xs[1..]);
      assert Items(xs)[1..] == rest;
    }
  }

  /** One more redirection behind a command. */
  function AddRedir(x: Exec, r: Redirect): (y: Exec) {
    match x
    case Block(open, line, close, redirs) => Block(open, line, close, redirs + [r])
    case Simple(redirs, items) =>
      if items == [] then Simple(redirs + [r], [])
      else var k := |items| - 1; Simple(redirs, items[..k] + [Item(items[k].word, items[k].redirs + [r])])
  }

  lemma {:induction false} LastItem(xs: seq<Item>, x: Item)
    ensures YieldItems(xs + [x]) == YieldItems(xs) + [x.word] + YieldRedirs(x.redirs)
    decreases |xs|
  {
    if xs == [] {
      assert xs + [x] == [x] && [x][1..] == [];
      assert YieldItems([x]) == [x.word] + YieldRedirs(x.redirs) + YieldItems([]);
    } else {
      LastItem(xs[1..], x);
      assert (xs + [x])[1..] == xs[1..] + [x];
    }
  }

  lemma AddRedirIs(x: Exec, r: Redirect)
    requires OkExec(x) && IsRedir(r.op.kind) && r.file.kind == 'a'
    ensures OkExec(AddRedir(x, r)) && YieldExec(AddRedir(x, r)) == YieldExec(x) + [r.op, r.file]
    ensures ExecTree(AddRedir(x, r)) == Redirected(ExecTree(x), r.op.kind, SpanOf(r.file))
  {
    hide YieldLine, YieldItems, LineTree, Wrap, Words, Redirs, OkLine;
    OneRedir(r);
    match x
    case Block(open, line, close, redirs) =>
      YieldRedirsJoin(redirs, [r]);
      WrapOne(LineTree(line), redirs, r);
    case Simple(redirs, items) =>
      if items == [] {
        NoItems();
        YieldRedirsJoin(redirs, [r]);
        WrapOne(ExecCmd([]), redirs, r);
        assert redirs + [] == redirs && redirs + [r] + [] == redirs + [r];
      } else {
        var k := |items| - 1;
        var front, last, now := items[..k], items[k], Item(items[k].word, items[k].redirs + [r]);
        assert items == front + [last];
        LastItem(front, last);
        LastItem(front, now);
        YieldRedirsJoin(last.redirs, [r]);
        WordsMore(front, last);
        WordsMore(front, now);
        WrapOne(ExecCmd(Words(items)), redirs + Redirs(items), r);
        assert redirs + Redirs(front + [now]) == redirs + Redirs(items) + [r];
      }
  }

  lemma OneRedir(r: Redirect)
    ensures YieldRedirs([r]) == [r.op, r.file]
  {
    assert [r][1..] == [];
  }

  lemma NoItems()
    ensures YieldItems([]) == [] && Words([]) == [] && Redirs([]) == []
  {
  }

  lemma {:induction false} SingleDerives(c: Cmd) returns (x: Exec)
    requires Writable(c)
    ensures OkExec(x) && YieldExec(x) == Single(c) && ExecTree(x) == c
    decreases c, 2
  {
    match c
    case ExecCmd(argv) =>
      ItemsAre(argv);
      x := Simple([], Items(argv));
      assert [] + Redirs(Items(argv)) == [];
    case RedirCmd(d, file, mode, fd) =>
      var y := SingleDerives(d);
      var r := Redirect(Sign(OpOf(mode, fd)), WordToken(file));
      AddRedirIs(y, r);
      x := AddRedir(y, r);
    case _ =>
      var l := BareDerives(c);
      x := Block(Sign('('), l, Sign(')'), []);
      WrapNone(c);
  }

  lemma {:induction false} PipeDerives(c: Cmd) returns (p: Pipe)
    requires Writable(c) && c.PipeCmd?
    ensures OkPipe(p) && YieldPipe(p) == Bare(c) && PipeTree(p) == c
    decreases c, 0
  {
    var x := SingleDerives(c.left);
    var q: Pipe;
    if c.right.PipeCmd? {
      q := PipeDerives(c.right);
    } else {
      var y := SingleDerives(c.right);
      q := Pipe(y, None);
    }
    p := Pipe(x, Some(PipeTail(Sign('|'), q)));
  }

  /** A job and the &s behind it. */
  lemma {:induction false} JobDerives(c: Cmd) returns (p: Pipe, bs: seq<Token>)
    requires Writable(c)
    ensures OkPipe(p) && (forall i :: 0 <= i < |bs| ==> bs[i].kind == '&')
    ensures YieldPipe(p) + bs == Job(c) && Backs(PipeTree(p), |bs|) == c
    decreases c, 3
  {
    match c
    case PipeCmd(_, _) =>
      p := PipeDerives(c);
      bs := [];
    case BackCmd(d) =>
      p, bs := JobDerives(d);
      BacksMore(PipeTree(p), |bs|);
      bs := bs + [Sign('&')];
    case _ =>
      var x := SingleDerives(c);
      p, bs := Pipe(x, None), [];
  }

  lemma {:induction false} BareDerives(c: Cmd) returns (l: Line)
    requires Writable(c) && (c.PipeCmd? || c.ListCmd? || c.BackCmd?)
    ensures OkLine(l) && YieldLine(l) == Bare(c) && LineTree(l) == c
    decreases c, 1
  {
    match c
    case PipeCmd(_, _) =>
      var p := PipeDerives(c);
      l := Line(p, [], None);
    case ListCmd(a, b) =>
      var p, bs := JobDerives(a);
      var m := WholeDerives(b);
      l := Line(p, bs, Some(Tail(Sign(';'), m)));
    case BackCmd(d) =>
      var p, bs := JobDerives(d);
      BacksMore(PipeTree(p), |bs|);
      l := Line(p, bs + [Sign('&')], None);
  }

  lemma {:induction false} WholeDerives(c: Cmd) returns (l: Line)
    requires Writable(c)
    ensures OkLine(l) && YieldLine(l) == Whole(c) && LineTree(l) == c
    decreases c, 4
  {
    match c
    case ExecCmd(_) =>
      var x := SingleDerives(c);
      l := Line(Pipe(x, None), [], None);
    case RedirCmd(_, _, _, _) =>
      var x := SingleDerives(c);
      l := Line(Pipe(x, None), [], None);
    case _ => l := BareDerives(c);
  }

  /** Every tree that can be written is what the parser makes of its text: what stands left of an operator is on
      the left, and parentheses group. */
  lemma RoundTrip(c: Cmd)
    requires Writable(c)
    ensures PLine(Whole(c)).Got? && PLine(Whole(c)).rest == [] && LineTree(PLine(Whole(c)).v) == c
  {
    var l := WholeDerives(c);
    AcceptsGrammar(Whole(c), l);
  }
}
