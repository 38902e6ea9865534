/** Lines as text: any spacing that keeps the tokens apart lexes to them, so a line is parsed as what it means however
    it is typed. */
module ShellText {
  import opened Basics
  import opened ShellSyntax
  import opened ShellGrammar
  import P = ShellPrinter
  import Shell

  // ---------- text made of tokens ----------

  /** A token with the spaces before it. */
  datatype Piece = Piece(gap: string, x: Lexeme<string>)

  function Show(x: Lexeme<string>): string {
    match x
    case Word(w) => w
    case Sym(c) => if c == '+' then ">>" else [c]
  }

  function Text(ps: seq<Piece>, tail: string): string {
    if ps == [] then tail else ps[0].gap + Show(ps[0].x) + Text(ps[1..], tail)
  }

  function Lexemes(ps: seq<Piece>): seq<Lexeme<string>> {
    seq(|ps|, k requires 0 <= k < |ps| => ps[k].x)
  }

  const SPACES := " \t\r\n" + [11 as char]
  const SYMBOLS := "<|>&;()"

  predicate Spaces(s: string) {
    forall k :: 0 <= k < |s| ==> s[k] in SPACES
  }

  /** A word is made of any other characters. */
  predicate IsPlain(w: string) {
    w != "" && forall k :: 0 <= k < |w| ==> w[k] !in SPACES && w[k] !in SYMBOLS && w[k] != NUL
  }

  predicate LexemeOk(x: Lexeme<string>) {
    if x.Word? then IsPlain(x.w) else x.c in SYMBOLS || x.c == '+'
  }

  lemma Characters(c: char)
    ensures IsSpace(c) <==> c in SPACES
    ensures IsSymbol(c) <==> c in SYMBOLS
  {
    assert SPACES == [' ', '\t', '\r', '\n', 11 as char];
    assert SYMBOLS == ['<', '|', '>', '&', ';', '(', ')'];
  }

  /** y can stand right behind x. */
  predicate Apart(x: Lexeme<string>, y: Lexeme<string>) {
    !(x.Word? && y.Word?) && !(x == Sym('>') && (y == Sym('>') || y == Sym('+')))
  }

  predicate Typed(ps: seq<Piece>) {
    && (forall k {:trigger ps[k]} :: 0 <= k < |ps| ==> Spaces(ps[k].gap) && LexemeOk(ps[k].x))
    && (forall k {:trigger ps[k]} :: 0 < k < |ps| ==> ps[k].gap != "" || Apart(ps[k - 1].x, ps[k].x))
  }

  function TokenOf(x: Lexeme<string>, b: nat, e: nat): Token {
    if x.Word? then Word(Span(b, e)) else Sym(x.c)
  }

  /** Where the tokens stand in a text that begins at at. */
  function Placed(ps: seq<Piece>, at: nat): seq<Token> {
    if ps == [] then []
    else
      var b := at + |ps[0].gap|;
      var e := b + |Show(ps[0].x)|;
      [TokenOf(ps[0].x, b, e)] + Placed(ps[1..], e)
  }

  // ---------- lexing it ----------

  lemma {:induction false} SkipGap(s: string, i: nat, j: nat)
    requires NoNul(s) && i <= j <= |s| && Spaces(s[i..j])
    ensures Lex(s, i) == Lex(s, j)
    decreases j - i
  {
    if i < j {
      assert s[i] == s[i..j][0] && s[i + 1..j] == s[i..j][1..];
      Characters(s[i]);
      P.LexSpace(s, i);
      SkipGap(s, i + 1, j);
    }
  }

  /** The character after a token is not one that would make it longer. */
  predicate StopsAt(s: string, x: Lexeme<string>, e: nat) {
    e < |s| ==> (x.Word? ==> !IsWordChar(s[e])) && (x == Sym('>') ==> s[e] != '>')
  }

  lemma LexOne(s: string, b: nat, x: Lexeme<string>, e: nat)
    requires NoNul(s) && LexemeOk(x) && b <= e <= |s| && s[b..e] == Show(x) && StopsAt(s, x, e)
    ensures Lex(s, b) == [TokenOf(x, b, e)] + Lex(s, e)
  {
    assert e == b + |Show(x)|;
    if x.Word? {
      forall k | 0 <= k < |x.w|
        ensures IsWordChar(x.w[k])
      {
        Characters(x.w[k]);
      }
      P.LexWord(s, b, x.w);
    } else {
      Characters(x.c);
      assert s[b] == s[b..e][0] == Show(x)[0];
      assert x.c == '+' ==> s[b + 1] == s[b..e][1] == Show(x)[1];
    }
  }

  /** What follows piece 0 begins so that its token ends there. */
  lemma Stops(ps: seq<Piece>, tail: string, s: string, e: nat)
    requires ps != [] && Typed(ps) && Spaces(tail) && e <= |s| && s[e..] == Text(ps[1..], tail)
    ensures StopsAt(s, ps[0].x, e)
  {
    if e < |s| {
      Characters(s[e]);
      assert s[e] == s[e..][0];
      if |ps| > 1 {
        assert ps[1..][0] == ps[1];
        if ps[1].gap == "" {
          assert Apart(ps[0].x, ps[1].x) && LexemeOk(ps[1].x);
          assert s[e] == Show(ps[1].x)[0];
        } else {
          assert s[e] == ps[1].gap[0];
        }
      }
    }
  }

  lemma LexPiece(s: string, at: nat, ps: seq<Piece>, tail: string, b: nat, e: nat)
    requires NoNul(s) && ps != [] && at <= |s| && s[at..] == Text(ps, tail) && Typed(ps) && Spaces(tail)
    requires b == at + |ps[0].gap| && e == b + |Show(ps[0].x)|
    ensures e <= |s| && s[e..] == Text(ps[1..], tail) && Lex(s, at) == [TokenOf(ps[0].x, b, e)] + Lex(s, e)
  {
    var gap, shown := ps[0].gap, Show(ps[0].x);
    PartsOf(s, at, gap, shown, Text(ps[1..], tail));
    Stops(ps, tail, s, e);
    LexGapOne(s, at, gap, b, ps[0].x, e);
  }

  lemma LexGapOne(s: string, at: nat, gap: string, b: nat, x: Lexeme<string>, e: nat)
    requires NoNul(s) && at <= b <= e <= |s| && s[at..b] == gap && Spaces(gap)
    requires LexemeOk(x) && s[b..e] == Show(x) && StopsAt(s, x, e)
    ensures Lex(s, at) == [TokenOf(x, b, e)] + Lex(s, e)
  {
    SkipGap(s, at, b);
    LexOne(s, b, x, e);
  }

  lemma LexTail(s: string, at: nat, tail: string)
    requires NoNul(s) && at <= |s| && s[at..] == tail && Spaces(tail)
    ensures Lex(s, at) == []
  {
    assert s[at..|s|] == tail;
    SkipGap(s, at, |s|);
  }

  /** The text lexes to the tokens it was made of, each where it stands. */
  lemma {:induction false} LexText(s: string, at: nat, ps: seq<Piece>, tail: string)
    requires NoNul(s) && at <= |s| && s[at..] == Text(ps, tail) && Typed(ps) && Spaces(tail)
    ensures Lex(s, at) == Placed(ps, at)
    decreases |ps|
  {
    if ps == [] {
      LexTail(s, at, tail);
    } else {
      var b := at + |ps[0].gap|;
      var e := b + |Show(ps[0].x)|;
      LexPiece(s, at, ps, tail, b, e);
      LaterTyped(ps);
      LexText(s, e, ps[1..], tail);
      PlacedFirst(ps, at, b, e, Lex(s, e));
    }
  }

  lemma PlacedFirst(ps: seq<Piece>, at: nat, b: nat, e: nat, later: seq<Token>)
    requires ps != [] && b == at + |ps[0].gap| && e == b + |Show(ps[0].x)| && later == Placed(ps[1..], e)
    ensures Placed(ps, at) == [TokenOf(ps[0].x, b, e)] + later
  {
  }

  lemma PartsOf(s: string, at: nat, a: string, b: string, c: string)
    requires at <= |s| && s[at..] == a + b + c
    ensures at + |a| + |b| <= |s|
    ensures s[at..at + |a|] == a && s[at + |a|..at + |a| + |b|] == b && s[at + |a| + |b|..] == c
  {
    assert |s[at..]| == |a| + |b| + |c|;
    assert s[at..at + |a|] == s[at..][..|a|] == a;
    assert s[at + |a|..at + |a| + |b|] == s[at..][|a|..|a| + |b|] == b;
    assert s[at + |a| + |b|..] == s[at..][|a| + |b|..] == c;
  }

  lemma LaterTyped(ps: seq<Piece>)
    requires ps != [] && Typed(ps)
    ensures Typed(ps[1..])
  {
    forall k | 0 < k < |ps[1..]|
      ensures ps[1..][k].gap != "" || Apart(ps[1..][k - 1].x, ps[1..][k].x)
    {
      assert ps[1..][k] == ps[k + 1];
    }
  }

  lemma {:induction false} TextNoNul(ps: seq<Piece>, tail: string)
    requires Typed(ps) && Spaces(tail)
    ensures NoNul(Text(ps, tail))
    decreases |ps|
  {
    if ps != [] {
      LaterTyped(ps);
      TextNoNul(ps[1..], tail);
      assert LexemeOk(ps[0].x);
    }
  }

  // ---------- tokens that stand for words ----------

  /** Token t of s is x. */
  predicate Match(s: string, t: Token, x: Lexeme<string>) {
    if t.Sym? then x == Sym(t.c) else x.Word? && P.Slice(s, t.w) == x.w
  }

  predicate Matches(s: string, ts: seq<Token>, xs: seq<Lexeme<string>>) {
    |ts| == |xs| && forall k {:trigger ts[k]} {:trigger xs[k]} :: 0 <= k < |ts| ==> Match(s, ts[k], xs[k])
  }

  lemma {:induction false} PlacedMatch(s: string, at: nat, ps: seq<Piece>, tail: string)
    requires at <= |s| && s[at..] == Text(ps, tail)
    ensures Matches(s, Placed(ps, at), Lexemes(ps))
    decreases |ps|
  {
    if ps != [] {
      var b := at + |ps[0].gap|;
      var e := b + |Show(ps[0].x)|;
      PartsOf(s, at, ps[0].gap, Show(ps[0].x), Text(ps[1..], tail));
      PlacedMatch(s, e, ps[1..], tail);
      assert Lexemes(ps) == [ps[0].x] + Lexemes(ps[1..]);
      assert ps[0].x.Word? ==> P.Slice(s, Span(b, e)) == ps[0].x.w;
    }
  }

  lemma MatchesSplit(s: string, ts: seq<Token>, xs: seq<Lexeme<string>>, ys: seq<Lexeme<string>>)
    requires Matches(s, ts, xs + ys)
    ensures |ts| == |xs| + |ys| && Matches(s, ts[..|xs|], xs) && Matches(s, ts[|xs|..], ys)
  {
    forall k | 0 <= k < |xs|
      ensures Match(s, ts[..|xs|][k], xs[k])
    {
      assert (xs + ys)[k] == xs[k];
    }
    forall k | 0 <= k < |ys|
      ensures Match(s, ts[|xs|..][k], ys[k])
    {
      assert (xs + ys)[|xs| + k] == ys[k];
    }
  }

  function Sliced(s: string, argv: seq<Span>): seq<string> {
    seq(|argv|, k requires 0 <= k < |argv| => P.Slice(s, argv[k]))
  }

  /** The items that tokens of s stand for. */
  lemma {:induction false} PlaceItems(s: string, items: seq<Item<string>>, ts: seq<Token>) returns (js: seq<Item<Span>>)
    requires Matches(s, ts, ItemTokens(items))
    ensures ItemTokens(js) == ts && Sliced(s, Args(js)) == Args(items) && (AllTo(items) ==> AllTo(js))
    ensures forall c {:trigger Wrap(c, js)} :: P.TextOf(s, Wrap(c, js)) == Wrap(P.TextOf(s, c), items)
    decreases |items|
  {
    js := [];
    if items != [] {
      var xs := OneItem(items[0]);
      MatchesSplit(s, ts, xs, ItemTokens(items[1..]));
      var more := PlaceItems(s, items[1..], ts[|xs|..]);
      assert xs[0] == if items[0].Arg? then Word(items[0].w) else OpToken(items[0].mode);
      var x: Item<Span> := if items[0].Arg? then Arg(ts[0].w) else To(items[0].mode, ts[1].w);
      assert items[0].To? ==> xs[1] == Word(items[0].file);
      js := [x] + more;
      assert js[1..] == more;
      assert ts == ts[..|xs|] + ts[|xs|..] && ts[..|xs|] == OneItem(x);
      PlacedArgs(s, x, more, items);
      forall c
        ensures P.TextOf(s, Wrap(c, js)) == Wrap(P.TextOf(s, c), items)
      {
        assert P.TextOf(s, Wrap(Under(c, x), more)) == Wrap(P.TextOf(s, Under(c, x)), items[1..]);
      }
    }
  }

  lemma PlacedArgs(s: string, x: Item<Span>, more: seq<Item<Span>>, items: seq<Item<string>>)
    requires items != [] && Sliced(s, Args(more)) == Args(items[1..])
    requires if items[0].Arg? then x.Arg? && P.Slice(s, x.w) == items[0].w else x.To?
    ensures Sliced(s, Args([x] + more)) == Args(items)
  {
    assert ([x] + more)[1..] == more;
    assert Args([x] + more) == OneArg(x) + Args(more);
    assert Sliced(s, OneArg(x)) == OneArg(items[0]);
    assert Sliced(s, OneArg(x) + Args(more)) == Sliced(s, OneArg(x)) + Sliced(s, Args(more));
  }

  lemma {:induction false} PlacePart(s: string, p: Part<string>, ts: seq<Token>) returns (q: Part<Span>)
    requires Matches(s, ts, PartTokens(p)) && PartOk(p)
    ensures PartTokens(q) == ts && PartOk(q) && (PartFits(q) <==> PartFits(p))
    ensures P.TextOf(s, PartTree(q)) == PartTree(p)
    decreases p
  {
    match p
    case Simple(items) =>
      var js := PlaceItems(s, items, ts);
      q := Simple(js);
      assert |Sliced(s, Args(js))| == |Args(items)|;
      assert P.TextOf(s, Exec(Args(js))) == Exec(Args(items));
    case Group(line, items) =>
      var tail: seq<Lexeme<string>> := [Sym(')')] + ItemTokens(items);
      MatchesSplit(s, ts, [Sym('(')], LineTokens(line) + tail);
      MatchesSplit(s, ts[1..], LineTokens(line), tail);
      var n := |LineTokens(line)|;
      MatchesSplit(s, ts[1..][n..], [Sym(')')], ItemTokens(items));
      var l := PlaceLine(s, line, ts[1..][..n]);
      var js := PlaceItems(s, items, ts[1..][n..][1..]);
      q := Group(l, js);
      GroupTokens(ts, n);
  }

  lemma GroupTokens(ts: seq<Token>, n: nat)
    requires n + 2 <= |ts| && ts[0] == Sym('(') && ts[1..][n..][0] == Sym(')')
    ensures ts == [Sym('(')] + (ts[1..][..n] + ([Sym(')')] + ts[1..][n..][1..]))
  {
  }

  lemma SplitPipe(s: string, p: Pipeline<string>, ts: seq<Token>) returns (a: seq<Token>, b: seq<Token>)
    requires p.more.Some? && Matches(s, ts, PipeTokens(p))
    ensures ts == a + ([Sym('|')] + b)
    ensures Matches(s, a, PartTokens(p.first)) && Matches(s, b, PipeTokens(p.more.value))
  {
    var tail: seq<Lexeme<string>> := [Sym('|')] + PipeTokens(p.more.value);
    MatchesSplit(s, ts, PartTokens(p.first), tail);
    var n := |PartTokens(p.first)|;
    MatchesSplit(s, ts[n..], [Sym('|')], PipeTokens(p.more.value));
    a, b := ts[..n], ts[n..][1..];
    assert ts[n..] == [Sym('|')] + b;
  }

  lemma {:induction false} PlacePipe(s: string, p: Pipeline<string>, ts: seq<Token>) returns (q: Pipeline<Span>)
    requires Matches(s, ts, PipeTokens(p)) && PipeOk(p)
    ensures PipeTokens(q) == ts && PipeOk(q) && (PipeFits(q) <==> PipeFits(p))
    ensures P.TextOf(s, PipeTree(q)) == PipeTree(p)
    decreases p
  {
    if p.more.None? {
      assert PipeTokens(p) == PartTokens(p.first);
      var first := PlacePart(s, p.first, ts);
      q := Pipeline(first, None);
      assert ts + [] == ts;
    } else {
      var a, b := SplitPipe(s, p, ts);
      var first := PlacePart(s, p.first, a);
      var more := PlacePipe(s, p.more.value, b);
      q := Pipeline(first, Some(more));
    }
  }

  lemma AmpTokens(s: string, ts: seq<Token>, n: nat)
    requires Matches(s, ts, Amps<string>(n))
    ensures ts == Amps<Span>(n)
  {
    forall k | 0 <= k < n
      ensures ts[k] == Sym('&')
    {
      assert Match(s, ts[k], Amps<string>(n)[k]);
    }
  }

  /** The '&' after a pipeline, and the ';' and line after that. */
  function AfterPipe<W>(l: Sentence<W>): seq<Lexeme<W>> {
    if l.more.None? then [] else [Sym(';')] + LineTokens(l.more.value)
  }

  lemma SplitLine(s: string, l: Sentence<string>, ts: seq<Token>) returns (a: seq<Token>, rest: seq<Token>)
    requires Matches(s, ts, LineTokens(l))
    ensures ts == a + (Amps<Span>(l.amps) + rest)
    ensures Matches(s, a, PipeTokens(l.first)) && Matches(s, rest, AfterPipe(l))
  {
    var n, m := |PipeTokens(l.first)|, l.amps;
    assert LineTokens(l) == PipeTokens(l.first) + (Amps(m) + AfterPipe(l));
    MatchesSplit(s, ts, PipeTokens(l.first), Amps(m) + AfterPipe(l));
    MatchesSplit(s, ts[n..], Amps(m), AfterPipe(l));
    AmpTokens(s, ts[n..][..m], m);
    a, rest := ts[..n], ts[n..][m..];
    assert ts[n..] == ts[n..][..m] + rest;
  }

  lemma {:induction false} PlaceLine(s: string, l: Sentence<string>, ts: seq<Token>) returns (q: Sentence<Span>)
    requires Matches(s, ts, LineTokens(l)) && LineOk(l)
    ensures LineTokens(q) == ts && LineOk(q) && (LineFits(q) <==> LineFits(l))
    ensures P.TextOf(s, LineTree(q)) == LineTree(l)
    decreases l
  {
    var a, rest := SplitLine(s, l, ts);
    var first := PlacePipe(s, l.first, a);
    BackText(s, PipeTree(first), l.amps);
    if l.more.None? {
      q := Sentence(first, l.amps, None);
      assert rest == [];
    } else {
      MatchesSplit(s, rest, [Sym(';')], LineTokens(l.more.value));
      var more := PlaceLine(s, l.more.value, rest[1..]);
      q := Sentence(first, l.amps, Some(more));
      assert rest == [Sym(';')] + rest[1..];
    }
  }

  lemma {:induction false} BackText(s: string, c: Cmd<Span>, n: nat)
    ensures P.TextOf(s, InBack(c, n)) == InBack(P.TextOf(s, c), n)
    decreases n
  {
    if n > 0 {
      BackText(s, Back(c), n - 1);
    }
  }

  // ---------- a typed line ----------

  /** However a line is typed, with any spaces that keep its tokens apart, the parser gives the tree that the line
      means, or panics because a command has ten words. */
  lemma TypedLine(l: Sentence<string>, ps: seq<Piece>, tail: string)
    requires LineOk(l) && Lexemes(ps) == LineTokens(l) && Typed(ps) && Spaces(tail)
    ensures var s := Text(ps, tail);
            && NoNul(s)
            && var r := Parse(Lex(s, 0));
               if LineFits(l) then r.Some? && P.TextOf(s, r.value) == LineTree(l) else r == None
  {
    var s := Text(ps, tail);
    TextNoNul(ps, tail);
    assert s[0..] == s;
    LexText(s, 0, ps, tail);
    PlacedMatch(s, 0, ps, tail);
    var q := PlaceLine(s, l, Placed(ps, 0));
    LineParses(q, []);
    assert LineTokens(q) + [] == LineTokens(q);
  }

  // ---------- no word is lost ----------

  function WordsOf(ts: seq<Token>): set<Span> {
    Shell.WordSpans(ts)
  }

  function WordOf(x: Item<Span>): Span {
    if x.Arg? then x.w else x.file
  }

  function ItemSpans(items: seq<Item<Span>>): set<Span> {
    set k | 0 <= k < |items| :: WordOf(items[k])
  }

  lemma WordsJoin(a: seq<Token>, b: seq<Token>)
    ensures WordsOf(a + b) == WordsOf(a) + WordsOf(b)
  {
    forall w
      ensures w in WordsOf(a + b) <==> w in WordsOf(a) || w in WordsOf(b)
    {
      if w in WordsOf(a) {
        var k :| 0 <= k < |a| && a[k] == Word(w);
        assert (a + b)[k] == Word(w);
      }
      if w in WordsOf(b) {
        var k :| 0 <= k < |b| && b[k] == Word(w);
        assert (a + b)[|a| + k] == Word(w);
      }
    }
  }

  lemma NoWord(c: char)
    ensures WordsOf([Sym(c)]) == {}
  {
  }

  lemma {:induction false} ItemWords(items: seq<Item<Span>>)
    ensures WordsOf(ItemTokens(items)) == ItemSpans(items)
    decreases |items|
  {
    if items == [] {
      assert WordsOf([]) == {};
    } else {
      ItemWords(items[1..]);
      WordsJoin(OneItem(items[0]), ItemTokens(items[1..]));
      assert WordsOf(OneItem(items[0])) == {WordOf(items[0])} by {
        assert OneItem(items[0])[|OneItem(items[0])| - 1] == Word(WordOf(items[0]));
      }
      FirstItem(items);
    }
  }

  lemma FirstItem(items: seq<Item<Span>>)
    requires items != []
    ensures ItemSpans(items) == {WordOf(items[0])} + ItemSpans(items[1..])
  {
    forall w
      ensures w in ItemSpans(items) <==> w == WordOf(items[0]) || w in ItemSpans(items[1..])
    {
      if w in ItemSpans(items[1..]) {
        var k :| 0 <= k < |items[1..]| && WordOf(items[1..][k]) == w;
        assert items[k + 1] == items[1..][k];
      }
      if w in ItemSpans(items) && w != WordOf(items[0]) {
        var k :| 0 <= k < |items| && WordOf(items[k]) == w;
        assert items[1..][k - 1] == items[k];
      }
    }
  }

  lemma {:induction false} WrapWords(c: Cmd<Span>, items: seq<Item<Span>>)
    requires Shell.Spans(c) >= set w | w in Args(items)
    ensures Shell.Spans(Wrap(c, items)) == Shell.Spans(c) + ItemSpans(items)
    decreases |items|
  {
    if items == [] {
      assert ItemSpans(items) == {};
    } else {
      FirstItem(items);
      assert Args(items) == OneArg(items[0]) + Args(items[1..]);
      assert forall w :: w in Args(items[1..]) ==> w in Args(items);
      assert items[0].Arg? ==> OneArg(items[0])[0] in Args(items);
      WrapWords(Under(c, items[0]), items[1..]);
    }
  }

  lemma {:induction false} ArgsAreWords(items: seq<Item<Span>>)
    ensures (set w | w in Args(items)) <= ItemSpans(items)
    decreases |items|
  {
    if items != [] {
      FirstItem(items);
      ArgsAreWords(items[1..]);
      assert Args(items) == OneArg(items[0]) + Args(items[1..]);
    }
  }

  lemma {:induction false} PartSpans(p: Part<Span>)
    requires PartOk(p)
    ensures Shell.Spans(PartTree(p)) == WordsOf(PartTokens(p))
    decreases p
  {
    match p
    case Simple(items) =>
      ItemWords(items);
      ArgsAreWords(items);
      WrapWords(Exec(Args(items)), items);
    case Group(line, items) =>
      ItemWords(items);
      NoArgs(items);
      WrapWords(LineTree(line), items);
      LineSpans(line);
      var tail: seq<Token> := [Sym(')')] + ItemTokens(items);
      WordsJoin([Sym('(')], LineTokens(line) + tail);
      WordsJoin(LineTokens(line), tail);
      WordsJoin([Sym(')')], ItemTokens(items));
      NoWord('(');
      NoWord(')');
  }

  lemma {:induction false} PipeSpans(p: Pipeline<Span>)
    requires PipeOk(p)
    ensures Shell.Spans(PipeTree(p)) == WordsOf(PipeTokens(p))
    decreases p
  {
    PartSpans(p.first);
    if p.more.None? {
      assert PipeTokens(p) == PartTokens(p.first);
    } else {
      PipeSpans(p.more.value);
      WordsJoin(PartTokens(p.first), [Sym('|')] + PipeTokens(p.more.value));
      WordsJoin([Sym('|')], PipeTokens(p.more.value));
      NoWord('|');
    }
  }

  lemma {:induction false} BackSpans(c: Cmd<Span>, n: nat)
    ensures Shell.Spans(InBack(c, n)) == Shell.Spans(c) && WordsOf(Amps(n)) == {}
    decreases n
  {
    if n > 0 {
      BackSpans(Back(c), n - 1);
    }
  }

  lemma {:induction false} LineSpans(l: Sentence<Span>)
    requires LineOk(l)
    ensures Shell.Spans(LineTree(l)) == WordsOf(LineTokens(l))
    decreases l
  {
    PipeSpans(l.first);
    BackSpans(PipeTree(l.first), l.amps);
    WordsJoin(PipeTokens(l.first), Amps<Span>(l.amps) + AfterPipe(l));
    WordsJoin(Amps(l.amps), AfterPipe(l));
    if l.more.None? {
      assert WordsOf(AfterPipe(l)) == {};
    } else {
      LineSpans(l.more.value);
      WordsJoin([Sym(';')], LineTokens(l.more.value));
      NoWord(';');
    }
  }

  /** The words of an accepted line are those of its tree, all of them and no other. */
  lemma AllWords(ts: seq<Token>, c: Cmd<Span>)
    requires Parse(ts) == Some(c)
    ensures Shell.Spans(c) == WordsOf(ts)
  {
    var l := LineFrom(ts);
    assert LineTokens(l) + [] == LineTokens(l);
    LineSpans(l);
  }
}
