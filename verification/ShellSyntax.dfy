/** The shell's tokens and its grammar:

      line  = pipe {"&"} [";" line]
      pipe  = exec ["|" pipe]
      exec  = "(" line ")" {redir} | {redir} {word {redir}}
      redir = ("<" | ">" | ">>") word

    with fewer than MAXARGS words in an exec. */
module ShellSyntax {
  import opened Common

  const MAXARGS := 10

  // ---- tokens ----

  predicate IsSpace(c: char) {
    c == ' ' || c == '\t' || c == '\r' || c == '\n' || c == 0x0b as char
  }

  predicate IsSymbol(c: char) {
    c == '<' || c == '|' || c == '>' || c == '&' || c == ';' || c == '(' || c == ')'
  }

  predicate IsWordChar(c: char) {
    !IsSpace(c) && !IsSymbol(c)
  }

  /** kind is the symbol itself, '+' for >>, 'a' for a word; the token is text[q..e]. */
  datatype Token = Token(kind: char, q: nat, e: nat)

  /** The first position from s on that is not white space. */
  function Skip(t: string, s: nat): (r: nat)
    requires s <= |t|
    ensures s <= r <= |t| && (r < |t| ==> !IsSpace(t[r]))
    ensures forall i :: s <= i < r ==> IsSpace(t[i])
    decreases |t| - s
  {
    if s < |t| && IsSpace(t[s]) then Skip(t, s + 1) else s
  }

  function WordEnd(t: string, s: nat): (r: nat)
    requires s <= |t|
    ensures s <= r <= |t| && (r < |t| ==> !IsWordChar(t[r]))
    ensures forall i :: s <= i < r ==> IsWordChar(t[i])
    decreases |t| - s
  {
    if s < |t| && IsWordChar(t[s]) then WordEnd(t, s + 1) else s
  }

  function TokenAt(t: string, s: nat): (k: Token)
    requires s < |t| && !IsSpace(t[s])
    ensures k.q == s < k.e <= |t|
  {
    if t[s] == '>' then (if s + 1 < |t| && t[s + 1] == '>' then Token('+', s, s + 2) else Token('>', s, s + 1))
    else if IsSymbol(t[s]) then Token(t[s], s, s + 1)
    else Token('a', s, WordEnd(t, s))
  }

  /** The tokens from position s on. */
  function Lex(t: string, s: nat): (ts: seq<Token>)
    requires s <= |t|
    decreases |t| - s
  {
    var q := Skip(t, s);
    if q == |t| then [] else [TokenAt(t, q)] + Lex(t, TokenAt(t, q).e)
  }

  lemma SkipTwice(t: string, s: nat)
    requires s <= |t|
    ensures Skip(t, Skip(t, s)) == Skip(t, s) && Lex(t, Skip(t, s)) == Lex(t, s)
  {
  }

  /** A maximal run of word characters. */
  predicate IsWord(t: string, k: Token) {
    && k.kind == 'a' && k.q < k.e <= |t|
    && (forall i :: k.q <= i < k.e ==> IsWordChar(t[i]))
    && (k.e < |t| ==> !IsWordChar(t[k.e]))
  }

  lemma {:induction false} LexWords(t: string, s: nat, i: nat)
    requires s <= |t| && i < |Lex(t, s)| && Lex(t, s)[i].kind == 'a'
    ensures IsWord(t, Lex(t, s)[i])
    decreases |t| - s
  {
    var k := TokenAt(t, Skip(t, s));
    if i > 0 {
      LexWords(t, k.e, i - 1);
    }
  }

  /** A token is a symbol, two of > in a row, or a word, and no longer token begins there. */
  predicate IsToken(t: string, k: Token) {
    && k.q < k.e <= |t|
    && if k.kind == 'a' then IsWord(t, k)
       else if k.kind == '+' then k.e == k.q + 2 && t[k.q] == '>' && t[k.q + 1] == '>'
       else k.e == k.q + 1 && t[k.q] == k.kind && IsSymbol(k.kind) && (k.kind == '>' && k.e < |t| ==> t[k.e] != '>')
  }

  /** The tokens of the text from s on, in order, with nothing but white space before, between and behind them. */
  ghost predicate AreTokens(t: string, s: nat, ts: seq<Token>)
    decreases |ts|
  {
    if ts == [] then Blank(t, s, |t|)
    else IsToken(t, ts[0]) && Blank(t, s, ts[0].q) && AreTokens(t, ts[0].e, ts[1..])
  }

  predicate Blank(t: string, a: nat, b: nat) {
    a <= b <= |t| && forall i :: a <= i < b ==> IsSpace(t[i])
  }

  lemma {:induction false} LexExact(t: string, s: nat)
    requires s <= |t|
    ensures AreTokens(t, s, Lex(t, s))
    decreases |t| - s
  {
    hide IsToken;
    var q := Skip(t, s);
    if q < |t| {
      var k := TokenAt(t, q);
      LexExact(t, k.e);
      TokenIs(t, q);
      assert Lex(t, s)[1..] == Lex(t, k.e);
    }
  }

  lemma TokenIs(t: string, s: nat)
    requires s < |t| && !IsSpace(t[s])
    ensures IsToken(t, TokenAt(t, s))
  {
  }

  // ---- derivations ----

  datatype Redirect = Redirect(op: Token, file: Token)
  datatype Item = Item(word: Token, redirs: seq<Redirect>)
  datatype Line = Line(pipe: Pipe, backs: seq<Token>, more: Option<Tail>)
  datatype Tail = Tail(semi: Token, line: Line)
  datatype Pipe = Pipe(exec: Exec, more: Option<PipeTail>)
  datatype PipeTail = PipeTail(bar: Token, pipe: Pipe)
  datatype Exec =
    | Block(open: Token, line: Line, close: Token, redirs: seq<Redirect>)
    | Simple(redirs: seq<Redirect>, items: seq<Item>)

  predicate IsRedir(c: char) {
    c == '<' || c == '>' || c == '+'
  }

  predicate OkRedirs(rs: seq<Redirect>) {
    forall i :: 0 <= i < |rs| ==> IsRedir(rs[i].op.kind) && rs[i].file.kind == 'a'
  }

  predicate OkItems(xs: seq<Item>) {
    forall i :: 0 <= i < |xs| ==> xs[i].word.kind == 'a' && OkRedirs(xs[i].redirs)
  }

  predicate OkLine(l: Line) {
    && OkPipe(l.pipe) && (forall i :: 0 <= i < |l.backs| ==> l.backs[i].kind == '&')
    && (l.more.Some? ==> l.more.value.semi.kind == ';' && OkLine(l.more.value.line))
  }

  predicate OkPipe(p: Pipe) {
    OkExec(p.exec) && (p.more.Some? ==> p.more.value.bar.kind == '|' && OkPipe(p.more.value.pipe))
  }

  predicate OkExec(x: Exec) {
    match x
    case Block(open, line, close, redirs) => open.kind == '(' && OkLine(line) && close.kind == ')' && OkRedirs(redirs)
    case Simple(redirs, items) => OkRedirs(redirs) && OkItems(items) && |items| < MAXARGS
  }

  function YieldRedirs(rs: seq<Redirect>): (ts: seq<Token>) {
    if rs == [] then [] else [rs[0].op, rs[0].file] + YieldRedirs(rs[1..])
  }

  function YieldItems(xs: seq<Item>): (ts: seq<Token>) {
    if xs == [] then [] else [xs[0].word] + YieldRedirs(xs[0].redirs) + YieldItems(xs[1..])
  }

  function YieldLine(l: Line): (ts: seq<Token>) {
    YieldPipe(l.pipe) + l.backs + if l.more.Some? then [l.more.value.semi] + YieldLine(l.more.value.line) else []
  }

  function YieldPipe(p: Pipe): (ts: seq<Token>) {
    YieldExec(p.exec) + if p.more.Some? then [p.more.value.bar] + YieldPipe(p.more.value.pipe) else []
  }

  function YieldExec(x: Exec): (ts: seq<Token>) {
    match x
    case Block(open, line, close, redirs) => [open] + YieldLine(line) + [close] + YieldRedirs(redirs)
    case Simple(redirs, items) => YieldRedirs(redirs) + YieldItems(items)
  }

  // ---- recursive descent over the tokens ----

  datatype Parse<+T> = Fail | Got(v: T, rest: seq<Token>)

  predicate At(ts: seq<Token>, c: char) {
    ts != [] && ts[0].kind == c
  }

  predicate AtRedir(ts: seq<Token>) {
    ts != [] && IsRedir(ts[0].kind)
  }

  predicate AtStop(ts: seq<Token>) {
    At(ts, '|') || At(ts, ')') || At(ts, '&') || At(ts, ';')
  }

  function PRedirs(ts: seq<Token>): (r: Parse<seq<Redirect>>)
    ensures r.Got? ==> |r.rest| <= |ts|
  {
    if !AtRedir(ts) then Got([], ts)
    else if !At(ts[1..], 'a') then Fail
    else match PRedirs(ts[2..])
         case Fail => Fail
         case Got(rs, rest) => Got([Redirect(ts[0], ts[1])] + rs, rest)
  }

  /** n words have been seen before. */
  function PItems(ts: seq<Token>, n: nat): (r: Parse<seq<Item>>)
    ensures r.Got? ==> |r.rest| <= |ts|
    decreases |ts|
  {
    if AtStop(ts) || ts == [] then Got([], ts)
    else if !At(ts, 'a') || n + 1 >= MAXARGS then Fail
    else match PRedirs(ts[1..])
         case Fail => Fail
         case Got(rs, r1) =>
           match PItems(r1, n + 1)
           case Fail => Fail
           case Got(xs, r2) => Got([Item(ts[0], rs)] + xs, r2)
  }

  function PBacks(ts: seq<Token>): (r: (seq<Token>, seq<Token>))
    ensures r.0 + r.1 == ts && !At(r.1, '&') && |r.1| <= |ts|
    ensures forall i :: 0 <= i < |r.0| ==> r.0[i].kind == '&'
  {
    if At(ts, '&') then var r := PBacks(ts[1..]); ([ts[0]] + r.0, r.1) else ([], ts)
  }

  function PLine(ts: seq<Token>): (r: Parse<Line>)
    ensures r.Got? ==> |r.rest| <= |ts|
    decreases |ts|, 3
  {
    match PPipe(ts)
    case Fail => Fail
    case Got(p, r1) =>
      var (bs, r2) := PBacks(r1);
      if At(r2, ';') then
        match PLine(r2[1..])
        case Fail => Fail
        case Got(l, r3) => Got(Line(p, bs, Some(Tail(r2[0], l))), r3)
      else Got(Line(p, bs, None), r2)
  }

  function PPipe(ts: seq<Token>): (r: Parse<Pipe>)
    ensures r.Got? ==> |r.rest| <= |ts|
    decreases |ts|, 2
  {
    match PExec(ts)
    case Fail => Fail
    case Got(x, r1) =>
      if At(r1, '|') then
        match PPipe(r1[1..])
        case Fail => Fail
        case Got(p, r2) => Got(Pipe(x, Some(PipeTail(r1[0], p))), r2)
      else Got(Pipe(x, None), r1)
  }

  function PExec(ts: seq<Token>): (r: Parse<Exec>)
    ensures r.Got? ==> |r.rest| <= |ts|
    decreases |ts|, 1
  {
    if At(ts, '(') then PBlock(ts)
    else match PRedirs(ts)
         case Fail => Fail
         case Got(rs, r1) =>
           match PItems(r1, 0)
           case Fail => Fail
           case Got(xs, r2) => Got(Simple(rs, xs), r2)
  }

  function PBlock(ts: seq<Token>): (r: Parse<Exec>)
    requires At(ts, '(')
    ensures r.Got? ==> |r.rest| <= |ts|
    decreases |ts|, 0
  {
    match PLine(ts[1..])
    case Fail => Fail
    case Got(l, r1) =>
      if !At(r1, ')') then Fail
      else match PRedirs(r1[1..])
           case Fail => Fail
           case Got(rs, r2) => Got(Block(ts[0], l, r1[0], rs), r2)
  }

  // ---- one unfolding each ----

  lemma RedirsIs(ts: seq<Token>)
    ensures PRedirs(ts) == if !AtRedir(ts) then Got([], ts) else if !At(ts[1..], 'a') then Fail
                           else match PRedirs(ts[2..])
                                case Fail => Fail
                                case Got(rs, rest) => Got([Redirect(ts[0], ts[1])] + rs, rest)
  {
  }

  lemma ItemsIs(ts: seq<Token>, n: nat)
    ensures PItems(ts, n) == if AtStop(ts) || ts == [] then Got([], ts) else if !At(ts, 'a') || n + 1 >= MAXARGS then Fail
                             else match PRedirs(ts[1..])
                                  case Fail => Fail
                                  case Got(rs, r1) =>
                                    match PItems(r1, n + 1)
                                    case Fail => Fail
                                    case Got(xs, r2) => Got([Item(ts[0], rs)] + xs, r2)
  {
    hide PRedirs;
  }

  lemma LineIs(ts: seq<Token>)
    ensures PLine(ts) == match PPipe(ts)
                         case Fail => Fail
                         case Got(p, r1) => LineRest(p, PBacks(r1).0, PBacks(r1).1)
  {
    hide PPipe, PBacks;
  }

  function LineRest(p: Pipe, bs: seq<Token>, ts: seq<Token>): (r: Parse<Line>) {
    if At(ts, ';') then
      match PLine(ts[1..])
      case Fail => Fail
      case Got(l, r3) => Got(Line(p, bs, Some(Tail(ts[0], l))), r3)
    else Got(Line(p, bs, None), ts)
  }

  lemma PipeIs(ts: seq<Token>)
    ensures PPipe(ts) == match PExec(ts)
                         case Fail => Fail
                         case Got(x, r1) => PipeRest(x, r1)
  {
    hide PExec;
  }

  function PipeRest(x: Exec, ts: seq<Token>): (r: Parse<Pipe>) {
    if At(ts, '|') then
      match PPipe(ts[1..])
      case Fail => Fail
      case Got(p, r2) => Got(Pipe(x, Some(PipeTail(ts[0], p))), r2)
    else Got(Pipe(x, None), ts)
  }

  lemma SimpleIs(ts: seq<Token>)
    requires !At(ts, '(')
    ensures PExec(ts) == match PRedirs(ts)
                         case Fail => Fail
                         case Got(rs, r1) =>
                           match PItems(r1, 0)
                           case Fail => Fail
                           case Got(xs, r2) => Got(Simple(rs, xs), r2)
  {
    hide PRedirs, PItems;
  }

  lemma BlockIs(ts: seq<Token>)
    requires At(ts, '(')
    ensures PExec(ts) == match PLine(ts[1..])
                         case Fail => Fail
                         case Got(l, r1) => BlockRest(ts[0], l, r1)
  {
    hide PLine, PRedirs;
  }

  function BlockRest(open: Token, l: Line, ts: seq<Token>): (r: Parse<Exec>) {
    if !At(ts, ')') then Fail
    else match PRedirs(ts[1..])
         case Fail => Fail
         case Got(rs, r2) => Got(Block(open, l, ts[0], rs), r2)
  }

  lemma YieldRedirsRest(rs: seq<Redirect>, rest: seq<Token>)
    ensures YieldRedirs(rs) + rest == if rs == [] then rest else [rs[0].op, rs[0].file] + (YieldRedirs(rs[1..]) + rest)
  {
  }

  lemma YieldItemsRest(xs: seq<Item>, rest: seq<Token>)
    ensures YieldItems(xs) + rest
         == if xs == [] then rest else [xs[0].word] + (YieldRedirs(xs[0].redirs) + (YieldItems(xs[1..]) + rest))
  {
    hide YieldRedirs;
  }

  lemma YieldLineRest(l: Line, rest: seq<Token>)
    ensures YieldLine(l) + rest
         == YieldPipe(l.pipe) + (l.backs + (if l.more.Some? then [l.more.value.semi] + (YieldLine(l.more.value.line) + rest) else rest))
  {
    hide YieldPipe;
  }

  lemma YieldPipeRest(p: Pipe, rest: seq<Token>)
    ensures YieldPipe(p) + rest
         == YieldExec(p.exec) + (if p.more.Some? then [p.more.value.bar] + (YieldPipe(p.more.value.pipe) + rest) else rest)
  {
    hide YieldExec;
  }

  lemma YieldExecRest(x: Exec, rest: seq<Token>)
    ensures YieldExec(x) + rest == match x
      case Block(open, line, close, redirs) => [open] + (YieldLine(line) + ([close] + (YieldRedirs(redirs) + rest)))
      case Simple(redirs, items) => YieldRedirs(redirs) + (YieldItems(items) + rest)
  {
    hide YieldLine, YieldRedirs, YieldItems;
  }

  // ---- everything it accepts is derived by the grammar ----

  lemma {:induction false} RedirsSound(ts: seq<Token>)
    requires PRedirs(ts).Got?
    ensures var r := PRedirs(ts); OkRedirs(r.v) && YieldRedirs(r.v) + r.rest == ts && !AtRedir(r.rest)
  {
    hide PRedirs, YieldRedirs;
    RedirsIs(ts);
    var all := PRedirs(ts);
    YieldRedirsRest(all.v, all.rest);
    if AtRedir(ts) {
      RedirsSound(ts[2..]);
      var r := PRedirs(ts[2..]);
      assert all.v[1..] == r.v;
      assert ts == [ts[0], ts[1]] + ts[2..];
    }
  }

  lemma {:induction false} ItemsSound(ts: seq<Token>, n: nat)
    requires PItems(ts, n).Got?
    ensures var r := PItems(ts, n);
            && OkItems(r.v) && YieldItems(r.v) + r.rest == ts && (AtStop(r.rest) || r.rest == [])
            && (r.v != [] ==> n + |r.v| < MAXARGS)
    decreases |ts|
  {
    hide PItems, PRedirs, YieldItems, YieldRedirs, OkRedirs;
    ItemsIs(ts, n);
    var all := PItems(ts, n);
    YieldItemsRest(all.v, all.rest);
    if !(AtStop(ts) || ts == []) {
      var a := PRedirs(ts[1..]);
      RedirsSound(ts[1..]);
      ItemsSound(a.rest, n + 1);
      var b := PItems(a.rest, n + 1);
      assert all.v[1..] == b.v;
      assert ts == [ts[0]] + ts[1..];
    }
  }

  lemma {:induction false} LineSound(ts: seq<Token>)
    requires PLine(ts).Got?
    ensures OkLine(PLine(ts).v) && YieldLine(PLine(ts).v) + PLine(ts).rest == ts
    decreases |ts|, 3
  {
    hide PLine, PPipe, PBacks, YieldLine, YieldPipe, OkPipe;
    LineIs(ts);
    PipeSound(ts);
    var p := PPipe(ts);
    var (bs, r2) := PBacks(p.rest);
    YieldLineRest(PLine(ts).v, PLine(ts).rest);
    if At(r2, ';') {
      LineSound(r2[1..]);
      assert r2 == [r2[0]] + r2[1..];
    }
  }

  lemma {:induction false} PipeSound(ts: seq<Token>)
    requires PPipe(ts).Got?
    ensures OkPipe(PPipe(ts).v) && YieldPipe(PPipe(ts).v) + PPipe(ts).rest == ts
    decreases |ts|, 2
  {
    hide PPipe, PExec, YieldPipe, YieldExec, OkExec;
    PipeIs(ts);
    ExecSound(ts);
    var x := PExec(ts);
    YieldPipeRest(PPipe(ts).v, PPipe(ts).rest);
    if At(x.rest, '|') {
      PipeSound(x.rest[1..]);
      assert x.rest == [x.rest[0]] + x.rest[1..];
    }
  }

  lemma {:induction false} ExecSound(ts: seq<Token>)
    requires PExec(ts).Got?
    ensures OkExec(PExec(ts).v) && YieldExec(PExec(ts).v) + PExec(ts).rest == ts
    decreases |ts|, 1
  {
    hide PExec, PLine, PRedirs, PItems, YieldExec, YieldLine, YieldRedirs, YieldItems, OkLine, OkRedirs, OkItems;
    YieldExecRest(PExec(ts).v, PExec(ts).rest);
    if At(ts, '(') {
      BlockIs(ts);
      LineSound(ts[1..]);
      var l := PLine(ts[1..]);
      RedirsSound(l.rest[1..]);
      assert l.rest == [l.rest[0]] + l.rest[1..];
      assert ts == [ts[0]] + ts[1..];
    } else {
      SimpleIs(ts);
      RedirsSound(ts);
      ItemsSound(PRedirs(ts).rest, 0);
    }
  }

  // ---- every derivation is found, whatever may follow it ----

  predicate FollowsLine(ts: seq<Token>) {
    ts == [] || At(ts, ')')
  }

  predicate FollowsPipe(ts: seq<Token>) {
    FollowsLine(ts) || At(ts, '&') || At(ts, ';')
  }

  predicate FollowsExec(ts: seq<Token>) {
    FollowsPipe(ts) || At(ts, '|')
  }

  lemma {:induction false} RedirsComplete(rs: seq<Redirect>, rest: seq<Token>)
    requires OkRedirs(rs) && !AtRedir(rest)
    ensures PRedirs(YieldRedirs(rs) + rest) == Got(rs, rest)
  {
    hide PRedirs, YieldRedirs;
    var ts := YieldRedirs(rs) + rest;
    YieldRedirsRest(rs, rest);
    RedirsIs(ts);
    if rs != [] {
      RedirsComplete(rs[1..], rest);
      assert ts[2..] == YieldRedirs(rs[1..]) + rest;
      assert rs == [rs[0]] + rs[1..];
    }
  }

  lemma {:induction false} ItemsComplete(xs: seq<Item>, n: nat, rest: seq<Token>)
    requires OkItems(xs) && n + |xs| < MAXARGS && FollowsExec(rest)
    ensures PItems(YieldItems(xs) + rest, n) == Got(xs, rest) && !AtRedir(YieldItems(xs) + rest) && !At(YieldItems(xs) + rest, '(')
    decreases |xs|
  {
    hide PItems, PRedirs, YieldItems, YieldRedirs, OkRedirs;
    var ts := YieldItems(xs) + rest;
    YieldItemsRest(xs, rest);
    ItemsIs(ts, n);
    if xs != [] {
      var r := YieldItems(xs[1..]) + rest;
      ItemsComplete(xs[1..], n + 1, rest);
      RedirsComplete(xs[0].redirs, r);
      assert ts[1..] == YieldRedirs(xs[0].redirs) + r;
      assert xs == [xs[0]] + xs[1..];
    }
  }

  lemma {:induction false} BacksComplete(bs: seq<Token>, rest: seq<Token>)
    requires (forall i :: 0 <= i < |bs| ==> bs[i].kind == '&') && !At(rest, '&')
    ensures PBacks(bs + rest) == (bs, rest)
  {
    if bs == [] {
      assert bs + rest == rest;
    } else {
      BacksComplete(bs[1..], rest);
      assert (bs + rest)[1..] == bs[1..] + rest;
      assert bs == [bs[0]] + bs[1..];
    }
  }

  lemma {:induction false} LineComplete(l: Line, rest: seq<Token>)
    requires OkLine(l) && FollowsLine(rest)
    ensures PLine(YieldLine(l) + rest) == Got(l, rest)
    decreases l
  {
    hide PLine, PPipe, PBacks, YieldLine, YieldPipe, OkPipe;
    var r2 := if l.more.Some? then [l.more.value.semi] + (YieldLine(l.more.value.line) + rest) else rest;
    PipeComplete(l.pipe, l.backs + r2);
    BacksComplete(l.backs, r2);
    YieldLineRest(l, rest);
    LineIs(YieldLine(l) + rest);
    if l.more.Some? {
      LineComplete(l.more.value.line, rest);
      assert r2[1..] == YieldLine(l.more.value.line) + rest;
    }
  }

  lemma {:induction false} PipeComplete(p: Pipe, rest: seq<Token>)
    requires OkPipe(p) && FollowsPipe(rest)
    ensures PPipe(YieldPipe(p) + rest) == Got(p, rest)
    decreases p
  {
    hide PPipe, PExec, YieldPipe, YieldExec, OkExec;
    var r1 := if p.more.Some? then [p.more.value.bar] + (YieldPipe(p.more.value.pipe) + rest) else rest;
    ExecComplete(p.exec, r1);
    YieldPipeRest(p, rest);
    PipeIs(YieldPipe(p) + rest);
    if p.more.Some? {
      PipeComplete(p.more.value.pipe, rest);
      assert r1[1..] == YieldPipe(p.more.value.pipe) + rest;
    }
  }

  lemma {:induction false} ExecComplete(x: Exec, rest: seq<Token>)
    requires OkExec(x) && FollowsExec(rest)
    ensures PExec(YieldExec(x) + rest) == Got(x, rest)
    decreases x
  {
    hide PExec, PLine, PRedirs, PItems, YieldExec, YieldLine, YieldRedirs, YieldItems, OkLine, OkRedirs, OkItems;
    var ts := YieldExec(x) + rest;
    YieldExecRest(x, rest);
    match x
    case Block(open, line, close, redirs) =>
      var r1 := [close] + (YieldRedirs(redirs) + rest);
      LineComplete(line, r1);
      RedirsComplete(redirs, rest);
      assert ts[1..] == YieldLine(line) + r1 && r1[1..] == YieldRedirs(redirs) + rest;
      BlockIs(ts);
    case Simple(redirs, items) =>
      ItemsComplete(items, 0, rest);
      RedirsComplete(redirs, YieldItems(items) + rest);
      SimpleStart(redirs, YieldItems(items) + rest);
      SimpleIs(ts);
  }

  lemma SimpleStart(redirs: seq<Redirect>, rest: seq<Token>)
    requires OkRedirs(redirs) && !At(rest, '(')
    ensures !At(YieldRedirs(redirs) + rest, '(')
  {
    hide YieldRedirs;
    YieldRedirsRest(redirs, rest);
  }

  /** The parser takes all of the tokens exactly when they are a line of the grammar, and then it
      returns the line's one and only derivation. */
  lemma AcceptsGrammar(ts: seq<Token>, l: Line)
    ensures PLine(ts) == Got(l, []) <==> OkLine(l) && YieldLine(l) == ts
  {
    if PLine(ts) == Got(l, []) {
      LineSound(ts);
      assert YieldLine(l) + [] == YieldLine(l);
    }
    if OkLine(l) && YieldLine(l) == ts {
      LineComplete(l, []);
      assert YieldLine(l) + [] == YieldLine(l);
    }
  }

  lemma Unambiguous(k: Line, l: Line)
    requires OkLine(k) && OkLine(l) && YieldLine(k) == YieldLine(l)
    ensures k == l
  {
    AcceptsGrammar(YieldLine(k), k);
    AcceptsGrammar(YieldLine(l), l);
  }
}
