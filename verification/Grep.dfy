/** grep's matcher against a declarative reading of its patterns. A C string is a sequence without NUL
    characters; its NUL is at the end of the sequence. */
module Grep {

  const NUL := 0 as char

  predicate CString(s: string) {
    forall i :: 0 <= i < |s| ==> s[i] != NUL
  }

  // ---- the language of a pattern ----

  datatype Elem = One(c: char) | Star(c: char)

  /** A pattern after its leading ^: elements, and whether a final $ ties the match to the end. */
  datatype Pattern = Pattern(elems: seq<Elem>, end: bool)

  function Parse(re: string): (p: Pattern) {
    if re == "" then Pattern([], false)
    else if |re| >= 2 && re[1] == '*' then Cons(Star(re[0]), Parse(re[2..]))
    else if re == "$" then Pattern([], true)
    else Cons(One(re[0]), Parse(re[1..]))
  }

  function Cons(e: Elem, p: Pattern): (r: Pattern) {
    p.(elems := [e] + p.elems)
  }

  predicate Fits(c: char, x: char) {
    c == '.' || c == x
  }

  predicate InElem(e: Elem, w: string) {
    match e
    case One(c) => |w| == 1 && Fits(c, w[0])
    case Star(c) => forall i :: 0 <= i < |w| ==> Fits(c, w[i])
  }

  function Flat(parts: seq<string>): (w: string) {
    if parts == [] then "" else parts[0] + Flat(parts[1..])
  }

  ghost predicate Splits(es: seq<Elem>, parts: seq<string>, w: string) {
    |parts| == |es| && Flat(parts) == w && forall i :: 0 <= i < |es| ==> InElem(es[i], parts[i])
  }

  /** w falls into one piece for each element, in order. */
  ghost predicate Lang(es: seq<Elem>, w: string) {
    exists parts :: Splits(es, parts, w)
  }

  /** Some prefix of text, all of it if p ends in $, is in the language. */
  ghost predicate Here(p: Pattern, text: string) {
    exists n :: 0 <= n <= |text| && HereLen(p, text, n)
  }

  ghost predicate HereLen(p: Pattern, text: string, n: nat)
    requires n <= |text|
  {
    Lang(p.elems, text[..n]) && (p.end ==> n == |text|)
  }

  /** Some substring of text is in the language, at the start of text if re begins with ^. */
  ghost predicate Matches(re: string, text: string) {
    if re != "" && re[0] == '^' then Here(Parse(re[1..]), text)
    else exists k :: 0 <= k <= |text| && HereAt(re, text, k)
  }

  ghost predicate HereAt(re: string, text: string, k: nat)
    requires k <= |text|
  {
    Here(Parse(re), text[k..])
  }

  // ---- what patterns say in plain words ----

  /** A pattern without * and $. */
  predicate Plain(re: string) {
    forall i :: 0 <= i < |re| ==> re[i] != '*' && re[i] != '$'
  }

  /** text has re at k, a dot standing for any character. */
  predicate Occurs(re: string, text: string, k: nat) {
    k + |re| <= |text| && forall i :: 0 <= i < |re| ==> re[i] == '.' || re[i] == text[k + i]
  }

  function Ones(re: string): (es: seq<Elem>) {
    if re == "" then [] else [One(re[0])] + Ones(re[1..])
  }

  lemma {:induction false} ParsePlain(re: string, end: bool)
    requires Plain(re)
    ensures Parse(re + if end then "$" else "") == Pattern(Ones(re), end)
  {
    var all := re + if end then "$" else "";
    if re == "" {
      assert end ==> all == "$";
    } else {
      ParsePlain(re[1..], end);
      assert all[1..] == re[1..] + if end then "$" else "";
      assert |all| >= 2 ==> all[1] != '*';
      assert all[0] == re[0];
    }
  }

  lemma {:induction false} LangOnes(re: string, w: string)
    ensures Lang(Ones(re), w) <==> |w| == |re| && Occurs(re, w, 0)
    decreases |re|
  {
    if re == "" {
      LangNone(w);
    } else {
      if Lang(Ones(re), w) {
        var k := LangHead(One(re[0]), Ones(re[1..]), w);
        LangOnes(re[1..], w[k..]);
      }
      if |w| == |re| && Occurs(re, w, 0) {
        LangOnes(re[1..], w[1..]);
        LangCons(One(re[0]), Ones(re[1..]), w, 1);
      }
    }
  }

  lemma LangNone(w: string)
    ensures Lang([], w) <==> w == ""
  {
    assert Splits([], [], "");
    if parts :| Splits([], parts, w) {
      assert w == "";
    }
  }

  lemma HereOnes(re: string, end: bool, text: string)
    ensures Here(Pattern(Ones(re), end), text) <==> Occurs(re, text, 0) && (end ==> |text| == |re|)
  {
    var p := Pattern(Ones(re), end);
    if n :| 0 <= n <= |text| && HereLen(p, text, n) {
      LangOnes(re, text[..n]);
    }
    if Occurs(re, text, 0) && (end ==> |text| == |re|) {
      LangOnes(re, text[..|re|]);
      assert HereLen(p, text, |re|);
    }
  }

  /** A pattern without special characters but the dot is found where it occurs; a leading ^ ties it to the
      beginning of the text and a final $ to its end. */
  lemma PlainMatches(re: string, text: string)
    requires Plain(re) && (re != "" ==> re[0] != '^')
    ensures Matches(re, text) <==> exists k :: 0 <= k <= |text| && Occurs(re, text, k)
    ensures Matches("^" + re, text) <==> Occurs(re, text, 0)
    ensures Matches(re + "$", text) <==> |re| <= |text| && Occurs(re, text, |text| - |re|)
  {
    ParsePlain(re, false);
    ParsePlain(re, true);
    assert re + "" == re && ("^" + re)[1..] == re;
    HereOnes(re, false, text);
    forall k | 0 <= k <= |text|
      ensures HereAt(re, text, k) <==> Occurs(re, text, k)
      ensures HereAt(re + "$", text, k) <==> Occurs(re, text, k) && |text| - k == |re|
    {
      HereOnes(re, false, text[k..]);
      HereOnes(re, true, text[k..]);
      OccursFrom(re, text, k);
    }
    assert |re| <= |text| ==> (HereAt(re + "$", text, |text| - |re|) <==> Occurs(re, text, |text| - |re|));
  }

  lemma OccursFrom(re: string, text: string, k: nat)
    requires k <= |text|
    ensures Occurs(re, text[k..], 0) <==> Occurs(re, text, k)
  {
    assert forall i :: 0 <= i < |text| - k ==> text[k..][i] == text[k + i];
  }

  /** c* between ^ and $: nothing but c, any number of times. */
  lemma StarMatches(c: char, text: string)
    requires c != NUL
    ensures Matches("^" + [c] + "*$", text) <==> forall i :: 0 <= i < |text| ==> c == '.' || text[i] == c
  {
    var re := [c] + "*$";
    assert ("^" + [c] + "*$")[1..] == re && re[2..] == "$";
    var p := Pattern([], true);
    assert Parse(re) == Cons(Star(c), p);
    if Here(Cons(Star(c), p), text) {
      var k := HereHead(Star(c), p, text);
      HereNone(true, text[k..]);
      assert text[..k] == text;
    }
    if forall i :: 0 <= i < |text| ==> c == '.' || text[i] == c {
      assert text[..|text|] == text;
      HereNone(true, text[|text|..]);
      HereTail(Star(c), p, text, |text|);
    }
  }

  // ---- how the language unfolds ----

  lemma LangCons(e: Elem, es: seq<Elem>, w: string, k: nat)
    requires k <= |w| && InElem(e, w[..k]) && Lang(es, w[k..])
    ensures Lang([e] + es, w)
  {
    var parts :| Splits(es, parts, w[k..]);
    var all := [w[..k]] + parts;
    assert all[1..] == parts && w[..k] + w[k..] == w;
    assert Splits([e] + es, all, w);
  }

  lemma LangHead(e: Elem, es: seq<Elem>, w: string) returns (k: nat)
    requires Lang([e] + es, w)
    ensures k <= |w| && InElem(e, w[..k]) && Lang(es, w[k..])
  {
    var parts :| Splits([e] + es, parts, w);
    k := |parts[0]|;
    assert w == parts[0] + Flat(parts[1..]);
    assert w[..k] == parts[0] && w[k..] == Flat(parts[1..]);
    assert ([e] + es)[0] == e;
    forall i | 0 <= i < |es|
      ensures InElem(es[i], parts[1..][i])
    {
      assert ([e] + es)[i + 1] == es[i];
    }
    assert Splits(es, parts[1..], w[k..]);
  }

  lemma HereNone(end: bool, text: string)
    ensures Here(Pattern([], end), text) <==> !end || text == ""
  {
    assert Splits([], [], text[..0]);
    assert HereLen(Pattern([], end), text, 0) <==> (end ==> 0 == |text|);
    forall n | 0 <= n <= |text| && Lang([], text[..n])
      ensures n == 0
    {
      var parts :| Splits([], parts, text[..n]);
    }
  }

  lemma HereTail(e: Elem, p: Pattern, text: string, k: nat)
    requires k <= |text| && InElem(e, text[..k]) && Here(p, text[k..])
    ensures Here(Cons(e, p), text)
  {
    var n :| 0 <= n <= |text[k..]| && HereLen(p, text[k..], n);
    var w := text[..k + n];
    assert w[..k] == text[..k] && w[k..] == text[k..][..n];
    LangCons(e, p.elems, w, k);
    assert HereLen(Cons(e, p), text, k + n);
  }

  lemma HereHead(e: Elem, p: Pattern, text: string) returns (k: nat)
    requires Here(Cons(e, p), text)
    ensures k <= |text| && InElem(e, text[..k]) && Here(p, text[k..])
  {
    var n :| 0 <= n <= |text| && HereLen(Cons(e, p), text, n);
    var w := text[..n];
    k := LangHead(e, p.elems, w);
    assert w[..k] == text[..k] && w[k..] == text[k..][..n - k];
    assert HereLen(p, text[k..], n - k);
  }

  // ---- the matcher ----

  /** text starts with a match of re. */
  method MatchHere(re: string, text: string) returns (r: bool)
    requires CString(re) && CString(text)
    ensures r <==> Here(Parse(re), text)
    decreases |re|, |text|
  {
    if re == "" {
      HereNone(false, text);
      return true;
    }
    if |re| > 1 && re[1] == '*' {
      r := MatchStar(re[0], re[2..], text);
      return;
    }
    if re[0] == '$' && |re| == 1 {
      HereNone(true, text);
      return text == "";
    }
    if text != "" && (re[0] == '.' || re[0] == text[0]) {
      r := MatchHere(re[1..], text[1..]);
      if r {
        HereTail(One(re[0]), Parse(re[1..]), text, 1);
      }
      NeedsOne(re[0], Parse(re[1..]), text);
      return;
    }
    NeedsOne(re[0], Parse(re[1..]), text);
    return false;
  }

  lemma NeedsOne(c: char, p: Pattern, text: string)
    ensures Here(Cons(One(c), p), text) ==> text != "" && Fits(c, text[0]) && Here(p, text[1..])
  {
    if Here(Cons(One(c), p), text) {
      var k := HereHead(One(c), p, text);
    }
  }

  /** text starts with any number of characters that fit c, and then a match of re. */
  method MatchStar(c: char, re: string, text: string) returns (r: bool)
    requires CString(re) && CString(text)
    ensures r <==> Here(Cons(Star(c), Parse(re)), text)
    decreases |re| + 1
  {
    var k := 0;
    while true
      invariant 0 <= k <= |text| && InElem(Star(c), text[..k])
      invariant forall j :: 0 <= j < k ==> !HereAt(re, text, j)
      decreases |text| - k
    {
      r := MatchHere(re, text[k..]);
      if r {
        HereTail(Star(c), Parse(re), text, k);
        return;
      }
      assert !HereAt(re, text, k);
      if k == |text| || !(text[k] == c || c == '.') {
        StarEnds(c, re, text, k);
        return false;
      }
      k := k + 1;
    }
  }

  lemma StarEnds(c: char, re: string, text: string, k: nat)
    requires k <= |text| && (k < |text| ==> !Fits(c, text[k]))
    requires forall j :: 0 <= j <= k ==> !HereAt(re, text, j)
    ensures !Here(Cons(Star(c), Parse(re)), text)
  {
    if Here(Cons(Star(c), Parse(re)), text) {
      var j := HereHead(Star(c), Parse(re), text);
      assert HereAt(re, text, j);
    }
  }

  /** Whether re occurs in text. */
  method Match(re: string, text: string) returns (r: bool)
    requires CString(re) && CString(text)
    ensures r <==> Matches(re, text)
  {
    if re != "" && re[0] == '^' {
      r := MatchHere(re[1..], text);
      return;
    }
    var k := 0;
    while true
      invariant 0 <= k <= |text|
      invariant forall j :: 0 <= j < k ==> !HereAt(re, text, j)
      decreases |text| - k
    {
      r := MatchHere(re, text[k..]);
      if r {
        assert HereAt(re, text, k);
        return;
      }
      assert !HereAt(re, text, k);
      if k == |text| {
        return false;
      }
      k := k + 1;
    }
  }
}
