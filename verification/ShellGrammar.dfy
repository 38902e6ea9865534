/** The lines that the shell's grammar describes, as people type them: words and redirections in any order, pipelines,
    lists, background commands and parentheses. The parser accepts exactly these, and its trees are what they mean. */
module ShellGrammar {
  import opened Basics
  import opened ShellSyntax

  // ---------- lines ----------

  datatype Item<W> = Arg(w: W) | To(mode: Mode, file: W)

  /** Words and redirections, or a line in parentheses with redirections after it. */
  datatype Part<W> = Simple(items: seq<Item<W>>) | Group(line: Sentence<W>, items: seq<Item<W>>)

  /** Parts with '|' between them. */
  datatype Pipeline<W> = Pipeline(first: Part<W>, more: Option<Pipeline<W>>)

  /** Pipelines with ';' between them, some '&' after each. */
  datatype Sentence<W> = Sentence(first: Pipeline<W>, amps: nat, more: Option<Sentence<W>>)

  function OneItem<W>(x: Item<W>): seq<Lexeme<W>> {
    match x
    case Arg(w) => [Word(w)]
    case To(mode, file) => [OpToken(mode), Word(file)]
  }

  function ItemTokens<W>(items: seq<Item<W>>): seq<Lexeme<W>> {
    if items == [] then [] else OneItem(items[0]) + ItemTokens(items[1..])
  }

  function PartTokens<W>(p: Part<W>): seq<Lexeme<W>> {
    match p
    case Simple(items) => ItemTokens(items)
    case Group(line, items) => [Sym('(')] + (LineTokens(line) + ([Sym(')')] + ItemTokens(items)))
  }

  function PipeTokens<W>(p: Pipeline<W>): seq<Lexeme<W>> {
    PartTokens(p.first) + if p.more.None? then [] else [Sym('|')] + PipeTokens(p.more.value)
  }

  function Amps<W>(n: nat): seq<Lexeme<W>> {
    seq(n, _ => Sym('&'))
  }

  function LineTokens<W>(l: Sentence<W>): seq<Lexeme<W>> {
    PipeTokens(l.first) + (Amps(l.amps) + if l.more.None? then [] else [Sym(';')] + LineTokens(l.more.value))
  }

  // ---------- what they mean ----------

  function OneArg<W>(x: Item<W>): seq<W> {
    if x.Arg? then [x.w] else []
  }

  /** The words, in order. */
  function Args<W>(items: seq<Item<W>>): seq<W> {
    if items == [] then [] else OneArg(items[0]) + Args(items[1..])
  }

  function Under<W>(c: Cmd<W>, x: Item<W>): Cmd<W> {
    if x.To? then Redir(c, x.file, x.mode) else c
  }

  /** The redirections around a command, the first one innermost. */
  function Wrap<W>(c: Cmd<W>, items: seq<Item<W>>): Cmd<W>
    decreases |items|
  {
    if items == [] then c
    else Wrap(Under(c, items[0]), items[1..])
  }

  function PartTree<W>(p: Part<W>): Cmd<W> {
    match p
    case Simple(items) => Wrap(Exec(Args(items)), items)
    case Group(line, items) => Wrap(LineTree(line), items)
  }

  function PipeTree<W>(p: Pipeline<W>): Cmd<W> {
    if p.more.None? then PartTree(p.first) else Pipe(PartTree(p.first), PipeTree(p.more.value))
  }

  function InBack<W>(c: Cmd<W>, n: nat): Cmd<W>
    decreases n
  {
    if n == 0 then c else InBack(Back(c), n - 1)
  }

  function LineTree<W>(l: Sentence<W>): Cmd<W> {
    var c := InBack(PipeTree(l.first), l.amps);
    if l.more.None? then c else List(c, LineTree(l.more.value))
  }

  /** Only redirections follow a parenthesis. */
  predicate AllTo<W>(items: seq<Item<W>>) {
    forall k :: 0 <= k < |items| ==> items[k].To?
  }

  predicate PartOk<W>(p: Part<W>) {
    p.Group? ==> LineOk(p.line) && AllTo(p.items)
  }

  predicate PipeOk<W>(p: Pipeline<W>) {
    PartOk(p.first) && (p.more.Some? ==> PipeOk(p.more.value))
  }

  predicate LineOk<W>(l: Sentence<W>) {
    PipeOk(l.first) && (l.more.Some? ==> LineOk(l.more.value))
  }

  /** At most nine words to a command. */
  predicate PartFits<W>(p: Part<W>) {
    if p.Simple? then |Args(p.items)| < MAXARGS else LineFits(p.line)
  }

  predicate PipeFits<W>(p: Pipeline<W>) {
    PartFits(p.first) && (p.more.Some? ==> PipeFits(p.more.value))
  }

  predicate LineFits<W>(l: Sentence<W>) {
    PipeFits(l.first) && (l.more.Some? ==> LineFits(l.more.value))
  }

  // ---------- items ----------

  lemma {:induction false} JoinTokens<W>(a: seq<Item<W>>, b: seq<Item<W>>)
    ensures ItemTokens(a + b) == ItemTokens(a) + ItemTokens(b)
    decreases |a|
  {
    if a == [] {
      assert a + b == b;
    } else {
      assert (a + b)[1..] == a[1..] + b;
      JoinTokens(a[1..], b);
      assert ItemTokens(a + b) == OneItem(a[0]) + ItemTokens(a[1..] + b);
    }
  }

  lemma {:induction false} JoinArgs<W>(a: seq<Item<W>>, b: seq<Item<W>>)
    ensures Args(a + b) == Args(a) + Args(b)
    decreases |a|
  {
    if a == [] {
      assert a + b == b;
    } else {
      assert (a + b)[1..] == a[1..] + b;
      JoinArgs(a[1..], b);
      assert Args(a + b) == OneArg(a[0]) + Args(a[1..] + b);
    }
  }

  lemma {:induction false} JoinWrap<W>(a: seq<Item<W>>, b: seq<Item<W>>, c: Cmd<W>)
    ensures Wrap(c, a + b) == Wrap(Wrap(c, a), b)
    decreases |a|
  {
    if a == [] {
      assert a + b == b;
    } else {
      assert (a + b)[0] == a[0] && (a + b)[1..] == a[1..] + b;
      JoinWrap(a[1..], b, Under(c, a[0]));
    }
  }

  lemma JoinItems<W>(a: seq<Item<W>>, b: seq<Item<W>>, c: Cmd<W>)
    ensures ItemTokens(a + b) == ItemTokens(a) + ItemTokens(b) && Args(a + b) == Args(a) + Args(b)
    ensures Wrap(c, a + b) == Wrap(Wrap(c, a), b)
  {
    JoinTokens(a, b);
    JoinArgs(a, b);
    JoinWrap(a, b, c);
  }

  /** A further word goes to the command inside the redirections. */
  lemma {:induction false} AddInside(argv: seq<Span>, items: seq<Item<Span>>, w: Span)
    ensures AddWord(Wrap(Exec(argv), items), w) == Wrap(Exec(argv + [w]), items)
    ensures Argc(Wrap(Exec(argv), items)) == |argv|
  {
    AddUnder(Exec(argv), items, w);
  }

  lemma {:induction false} AddUnder(c: Cmd<Span>, items: seq<Item<Span>>, w: Span)
    ensures AddWord(Wrap(c, items), w) == Wrap(AddWord(c, w), items) && Argc(Wrap(c, items)) == Argc(c)
    decreases |items|
  {
    if items != [] {
      AddUnder(Under(c, items[0]), items[1..], w);
    }
  }

  /** The loop of parseredirs takes the redirections up to the next word. */
  lemma {:induction false} RedirsTake(c: Cmd<Span>, items: seq<Item<Span>>, rest: seq<Token>)
    requires AllTo(items) && !StartsRedir(rest)
    ensures Redirs(c, ItemTokens(items) + rest) == Some((Wrap(c, items), rest))
    decreases |items|
  {
    var ts := ItemTokens(items) + rest;
    if items == [] {
      assert ts == rest;
    } else {
      var d := Under(c, items[0]);
      assert ts[0] == OpToken(items[0].mode) && ts[1] == Word(items[0].file);
      assert ts[2..] == ItemTokens(items[1..]) + rest;
      RedirsTake(d, items[1..], rest);
    }
  }

  /** Items are redirections, and then a word and what follows. */
  lemma {:induction false} Split<W>(items: seq<Item<W>>) returns (tos: seq<Item<W>>, later: seq<Item<W>>)
    ensures items == tos + later && AllTo(tos) && StartsArg(later)
    decreases |items|
  {
    tos, later := [], items;
    if items != [] && items[0].To? {
      tos, later := Split(items[1..]);
      tos := [items[0]] + tos;
    }
  }

  predicate StartsArg<W>(items: seq<Item<W>>) {
    items != [] ==> items[0].Arg?
  }

  /** The loop of parseredirs stops at the next word, or at rest. */
  lemma LeadTaken(c: Cmd<Span>, tos: seq<Item<Span>>, later: seq<Item<Span>>, rest: seq<Token>)
    requires EndsWords(rest) && AllTo(tos) && StartsArg(later)
    ensures Redirs(c, ItemTokens(tos + later) + rest) == Some((Wrap(c, tos), ItemTokens(later) + rest))
  {
    NoRedirNext(later, rest);
    RedirsTake(c, tos, ItemTokens(later) + rest);
    JoinTokens(tos, later);
    Regroup(ItemTokens(tos), ItemTokens(later), rest);
  }

  lemma Regroup(a: seq<Token>, b: seq<Token>, c: seq<Token>)
    ensures a + b + c == a + (b + c)
  {
  }

  lemma NoRedirNext(later: seq<Item<Span>>, rest: seq<Token>)
    requires EndsWords(rest) && StartsArg(later)
    ensures !StartsRedir(ItemTokens(later) + rest)
  {
    if later == [] {
      assert ItemTokens(later) + rest == rest;
    } else {
      assert (ItemTokens(later) + rest)[0] == OneItem(later[0])[0];
    }
  }

  /** One round of the loop of parseexec: a word, and the redirections up to the next one. */
  lemma OneRound(done: seq<Item<Span>>, x: Item<Span>, tos: seq<Item<Span>>, later: seq<Item<Span>>, rest: seq<Token>)
    requires EndsWords(rest) && x.Arg? && AllTo(tos) && StartsArg(later)
    ensures var now := done + [x] + tos;
            && Args(now) == Args(done) + [x.w]
            && Words(Wrap(Exec(Args(done)), done), ItemTokens([x] + (tos + later)) + rest) ==
                 if |Args(now)| < MAXARGS then Words(Wrap(Exec(Args(now)), now), ItemTokens(later) + rest) else None
  {
    var ts := ItemTokens([x] + (tos + later)) + rest;
    assert ([x] + (tos + later))[1..] == tos + later;
    assert ts[0] == Word(x.w) && ts[1..] == ItemTokens(tos + later) + rest;
    AddInside(Args(done), done, x.w);
    OneWord(done, x, tos);
    LeadTaken(Wrap(Exec(Args(done) + [x.w]), done), tos, later, rest);
  }

  /** The loop of parseexec, after the items done, reads all that follow. */
  lemma {:induction false} WordsTake(done: seq<Item<Span>>, items: seq<Item<Span>>, rest: seq<Token>)
    requires EndsWords(rest) && StartsArg(items) && |Args(done)| < MAXARGS
    ensures Words(Wrap(Exec(Args(done)), done), ItemTokens(items) + rest) ==
            if |Args(done + items)| < MAXARGS then Some((Wrap(Exec(Args(done + items)), done + items), rest)) else None
    decreases |items|
  {
    if items == [] {
      assert ItemTokens(items) + rest == rest && done + items == done;
    } else {
      var tos, later := Split(items[1..]);
      var now := done + [items[0]] + tos;
      assert items == [items[0]] + (tos + later);
      assert now + later == done + items;
      OneRound(done, items[0], tos, later, rest);
      if |Args(now)| < MAXARGS {
        WordsTake(now, later, rest);
      } else {
        JoinArgs(now, later);
      }
    }
  }

  /** A word and the redirections after it. */
  lemma OneWord(done: seq<Item<Span>>, x: Item<Span>, tos: seq<Item<Span>>)
    requires x.Arg? && AllTo(tos)
    ensures Args(done + [x] + tos) == Args(done) + [x.w]
    ensures Wrap(Wrap(Exec(Args(done) + [x.w]), done), tos) == Wrap(Exec(Args(done + [x] + tos)), done + [x] + tos)
  {
    var c := Exec(Args(done) + [x.w]);
    NoArgs(tos);
    JoinItems(done, [x], c);
    JoinItems(done + [x], tos, c);
    assert Args([x]) == [x.w];
    assert Wrap(Wrap(c, done), [x]) == Wrap(c, done);
  }

  lemma {:induction false} NoArgs<W>(tos: seq<Item<W>>)
    requires AllTo(tos)
    ensures Args(tos) == []
    decreases |tos|
  {
    if tos != [] {
      NoArgs(tos[1..]);
    }
  }

  lemma SimpleParses(items: seq<Item<Span>>, rest: seq<Token>)
    requires EndsWords(rest)
    ensures ExecP(ItemTokens(items) + rest) ==
            if |Args(items)| < MAXARGS then Some((Wrap(Exec(Args(items)), items), rest)) else None
  {
    var tos, later := Split(items);
    NoGroup(items, rest);
    LeadTaken(Exec([]), tos, later, rest);
    NoArgs(tos);
    WordsTake(tos, later, rest);
    SimpleRead(ItemTokens(items) + rest, tos, ItemTokens(later) + rest);
  }

  lemma SimpleRead(all: seq<Token>, tos: seq<Item<Span>>, left: seq<Token>)
    requires !Starts(all, '(') && Args(tos) == [] && Redirs(Exec([]), all) == Some((Wrap(Exec([]), tos), left))
    ensures ExecP(all) == Words(Wrap(Exec(Args(tos)), tos), left)
  {
  }

  lemma NoGroup(items: seq<Item<Span>>, rest: seq<Token>)
    requires EndsWords(rest)
    ensures !Starts(ItemTokens(items) + rest, '(')
  {
    if items == [] {
      assert ItemTokens(items) + rest == rest;
    } else {
      assert (ItemTokens(items) + rest)[0] == OneItem(items[0])[0];
    }
  }

  // ---------- every line is parsed as what it means ----------

  /** What may follow a line: the end, or the parenthesis that closes it. */
  predicate EndsLine(rest: seq<Token>) {
    rest == [] || Starts(rest, ')')
  }

  /** What may follow a pipeline. */
  predicate EndsPipe(rest: seq<Token>) {
    EndsLine(rest) || Starts(rest, '&') || Starts(rest, ';')
  }

  function Result(fits: bool, c: Cmd<Span>, rest: seq<Token>): Parsed {
    if fits then Some((c, rest)) else None
  }

  lemma {:induction false} PartParses(p: Part<Span>, rest: seq<Token>)
    requires PartOk(p) && EndsWords(rest)
    ensures ExecP(PartTokens(p) + rest) == Result(PartFits(p), PartTree(p), rest)
    decreases p
  {
    match p
    case Simple(items) => SimpleParses(items, rest);
    case Group(line, items) =>
      var ts, tail := PartTokens(p) + rest, [Sym(')')] + (ItemTokens(items) + rest);
      assert ts[0] == Sym('(') && ts[1..] == LineTokens(line) + tail;
      assert tail[1..] == ItemTokens(items) + rest;
      LineParses(line, tail);
      RedirsTake(LineTree(line), items, rest);
  }

  lemma {:induction false} PipeParses(p: Pipeline<Span>, rest: seq<Token>)
    requires PipeOk(p) && EndsPipe(rest)
    ensures PipeP(PipeTokens(p) + rest) == Result(PipeFits(p), PipeTree(p), rest)
    decreases p
  {
    var ts := PipeTokens(p) + rest;
    if p.more.None? {
      assert ts == PartTokens(p.first) + rest;
      PartParses(p.first, rest);
    } else {
      var tail := [Sym('|')] + (PipeTokens(p.more.value) + rest);
      assert ts == PartTokens(p.first) + tail && tail[1..] == PipeTokens(p.more.value) + rest;
      PartParses(p.first, tail);
      PipeParses(p.more.value, rest);
    }
  }

  lemma {:induction false} AmpsTake(c: Cmd<Span>, n: nat, rest: seq<Token>)
    requires !Starts(rest, '&')
    ensures Backs(c, Amps(n) + rest) == (InBack(c, n), rest)
    decreases n
  {
    var ts := Amps(n) + rest;
    if n == 0 {
      assert ts == rest;
    } else {
      assert ts[1..] == Amps(n - 1) + rest;
      AmpsTake(Back(c), n - 1, rest);
    }
  }

  lemma {:induction false} LineParses(l: Sentence<Span>, rest: seq<Token>)
    requires LineOk(l) && EndsLine(rest)
    ensures Line(LineTokens(l) + rest) == Result(LineFits(l), LineTree(l), rest)
    decreases l
  {
    var ts := LineTokens(l) + rest;
    var after := if l.more.None? then rest else [Sym(';')] + (LineTokens(l.more.value) + rest);
    assert ts == PipeTokens(l.first) + (Amps(l.amps) + after);
    assert EndsPipe(Amps(l.amps) + after) by {
      assert l.amps == 0 ==> Amps(l.amps) + after == after;
    }
    PipeParses(l.first, Amps(l.amps) + after);
    AmpsTake(PipeTree(l.first), l.amps, after);
    if l.more.Some? {
      assert after[1..] == LineTokens(l.more.value) + rest;
      LineParses(l.more.value, rest);
    }
  }

  // ---------- what is parsed is such a line ----------

  lemma {:induction false} RedirsFrom(c: Cmd<Span>, ts: seq<Token>) returns (items: seq<Item<Span>>)
    requires Redirs(c, ts).Some?
    ensures var r := Redirs(c, ts).value;
            AllTo(items) && ts == ItemTokens(items) + r.1 && r.0 == Wrap(c, items) && !StartsRedir(r.1)
    decreases |ts|
  {
    items := [];
    if StartsRedir(ts) {
      var x := To(ModeOf(ts[0].c), ts[1].w);
      var more := RedirsFrom(Under(c, x), ts[2..]);
      items := [x] + more;
      assert items[1..] == more && ts == OneItem(x) + ts[2..];
    }
  }

  /** The first round of the loop of parseexec. */
  lemma FirstWord(done: seq<Item<Span>>, ts: seq<Token>) returns (x: Item<Span>, tos: seq<Item<Span>>, left: seq<Token>)
    requires Words(Wrap(Exec(Args(done)), done), ts).Some? && !EndsWords(ts)
    ensures x.Arg? && AllTo(tos) && ts == [Word(x.w)] + (ItemTokens(tos) + left) && |Args(done)| + 1 < MAXARGS
    ensures Args(done + [x] + tos) == Args(done) + [x.w]
    ensures Words(Wrap(Exec(Args(done)), done), ts) ==
            Words(Wrap(Exec(Args(done + [x] + tos)), done + [x] + tos), left)
  {
    x := Arg(ts[0].w);
    AddInside(Args(done), done, x.w);
    var c := Wrap(Exec(Args(done) + [x.w]), done);
    tos := RedirsFrom(c, ts[1..]);
    left := Redirs(c, ts[1..]).value.1;
    OneWord(done, x, tos);
    assert ts == [ts[0]] + ts[1..];
  }

  lemma Grouped(done: seq<Item<Span>>, x: Item<Span>, tos: seq<Item<Span>>, more: seq<Item<Span>>)
    requires x.Arg?
    ensures var items := [x] + (tos + more);
            && done + items == done + [x] + tos + more
            && ItemTokens(items) == [Word(x.w)] + (ItemTokens(tos) + ItemTokens(more))
  {
    var items := [x] + (tos + more);
    assert items[1..] == tos + more;
    JoinItems(tos, more, Exec([]));
  }

  lemma {:induction false} WordsFrom(done: seq<Item<Span>>, ts: seq<Token>) returns (items: seq<Item<Span>>)
    requires Words(Wrap(Exec(Args(done)), done), ts).Some? && |Args(done)| < MAXARGS
    ensures var r := Words(Wrap(Exec(Args(done)), done), ts).value;
            && ts == ItemTokens(items) + r.1 && r.0 == Wrap(Exec(Args(done + items)), done + items)
            && |Args(done + items)| < MAXARGS && EndsWords(r.1)
    decreases |ts|
  {
    items := [];
    if EndsWords(ts) {
      assert done + items == done;
    } else {
      var x, tos, left := FirstWord(done, ts);
      var more := WordsFrom(done + [x] + tos, left);
      Grouped(done, x, tos, more);
      items := [x] + (tos + more);
      AfterWord(x, tos, more, ts, left, Words(Wrap(Exec(Args(done)), done), ts).value.1);
    }
  }

  lemma AfterWord(x: Item<Span>, tos: seq<Item<Span>>, more: seq<Item<Span>>, ts: seq<Token>, left: seq<Token>,
                  rest: seq<Token>)
    requires x.Arg? && ts == [Word(x.w)] + (ItemTokens(tos) + left) && left == ItemTokens(more) + rest
    ensures ts == [Word(x.w)] + (ItemTokens(tos) + ItemTokens(more)) + rest
  {
  }

  lemma {:induction false} PartFrom(ts: seq<Token>) returns (p: Part<Span>)
    requires ExecP(ts).Some?
    ensures var r := ExecP(ts).value;
            PartOk(p) && PartFits(p) && ts == PartTokens(p) + r.1 && r.0 == PartTree(p)
    decreases |ts|, 1
  {
    if Starts(ts, '(') {
      var line := LineFrom(ts[1..]);
      var r := Line(ts[1..]).value;
      var items := RedirsFrom(r.0, r.1[1..]);
      p := Group(line, items);
      GroupIs(ts, line, r.1, items, ExecP(ts).value.1);
    } else {
      p := SimpleFrom(ts);
    }
  }

  lemma GroupIs(ts: seq<Token>, line: Sentence<Span>, tail: seq<Token>, items: seq<Item<Span>>, rest: seq<Token>)
    requires Starts(ts, '(') && ts[1..] == LineTokens(line) + tail
    requires Starts(tail, ')') && tail[1..] == ItemTokens(items) + rest
    ensures ts == PartTokens(Group(line, items)) + rest
  {
    assert ts == [Sym('(')] + ts[1..] && tail == [Sym(')')] + tail[1..];
  }

  lemma SimpleFrom(ts: seq<Token>) returns (p: Part<Span>)
    requires ExecP(ts).Some? && !Starts(ts, '(')
    ensures var r := ExecP(ts).value;
            PartOk(p) && PartFits(p) && ts == PartTokens(p) + r.1 && r.0 == PartTree(p)
  {
    var tos := RedirsFrom(Exec([]), ts);
    NoArgs(tos);
    var left := Redirs(Exec([]), ts).value.1;
    var more := WordsFrom(tos, left);
    BothItems(tos, more, ts, left, Words(Wrap(Exec(Args(tos)), tos), left).value.1);
    p := Simple(tos + more);
  }

  lemma BothItems(a: seq<Item<Span>>, b: seq<Item<Span>>, ts: seq<Token>, left: seq<Token>, rest: seq<Token>)
    requires ts == ItemTokens(a) + left && left == ItemTokens(b) + rest
    ensures ts == ItemTokens(a + b) + rest
  {
    JoinItems(a, b, Exec([]));
  }

  lemma {:induction false} PipeFrom(ts: seq<Token>) returns (p: Pipeline<Span>)
    requires PipeP(ts).Some?
    ensures var r := PipeP(ts).value;
            PipeOk(p) && PipeFits(p) && ts == PipeTokens(p) + r.1 && r.0 == PipeTree(p)
    decreases |ts|, 2
  {
    var first := PartFrom(ts);
    var r := ExecP(ts).value;
    if Starts(r.1, '|') {
      var more := PipeFrom(r.1[1..]);
      p := Pipeline(first, Some(more));
      TwoParts(ts, first, more, r.1, PipeP(ts).value.1);
    } else {
      p := Pipeline(first, None);
      assert PartTokens(first) + [] == PartTokens(first);
    }
  }

  lemma TwoParts(ts: seq<Token>, first: Part<Span>, more: Pipeline<Span>, left: seq<Token>, rest: seq<Token>)
    requires ts == PartTokens(first) + left && Starts(left, '|') && left[1..] == PipeTokens(more) + rest
    ensures ts == PipeTokens(Pipeline(first, Some(more))) + rest
  {
    assert left == [Sym('|')] + left[1..];
  }

  lemma {:induction false} AmpsFrom(c: Cmd<Span>, ts: seq<Token>) returns (n: nat)
    ensures Backs(c, ts).0 == InBack(c, n) && ts == Amps(n) + Backs(c, ts).1
    decreases |ts|
  {
    n := 0;
    if Starts(ts, '&') {
      var m := AmpsFrom(Back(c), ts[1..]);
      n := m + 1;
      assert ts == [Sym('&')] + ts[1..];
      assert Amps<Span>(n) == [Sym('&')] + Amps<Span>(m);
    }
  }

  lemma {:induction false} LineFrom(ts: seq<Token>) returns (l: Sentence<Span>)
    requires Line(ts).Some?
    ensures var r := Line(ts).value;
            LineOk(l) && LineFits(l) && ts == LineTokens(l) + r.1 && r.0 == LineTree(l)
    decreases |ts|, 3
  {
    var first := PipeFrom(ts);
    var r := PipeP(ts).value;
    var n := AmpsFrom(r.0, r.1);
    var b := Backs(r.0, r.1);
    if Starts(b.1, ';') {
      var more := LineFrom(b.1[1..]);
      l := Sentence(first, n, Some(more));
      TwoLines(ts, first, n, more, r.1, b.1, Line(ts).value.1);
    } else {
      l := Sentence(first, n, None);
      assert ts == PipeTokens(first) + (Amps(n) + []) + b.1;
    }
  }

  lemma TwoLines(ts: seq<Token>, first: Pipeline<Span>, n: nat, more: Sentence<Span>, after: seq<Token>,
                 left: seq<Token>, rest: seq<Token>)
    requires ts == PipeTokens(first) + after && after == Amps(n) + left
    requires Starts(left, ';') && left[1..] == LineTokens(more) + rest
    ensures ts == LineTokens(Sentence(first, n, Some(more))) + rest
  {
    assert left == [Sym(';')] + left[1..];
  }

  /** A token list is accepted exactly if it is that of a line with at most nine words to a command, and its tree is
      then what the line means. */
  lemma ParsesExactly(ts: seq<Token>, c: Cmd<Span>)
    ensures Parse(ts) == Some(c) <==> exists l :: LineOk(l) && LineFits(l) && LineTokens(l) == ts && LineTree(l) == c
  {
    if Parse(ts) == Some(c) {
      var l := LineFrom(ts);
      assert LineTokens(l) + [] == LineTokens(l);
    }
    forall l | LineOk(l) && LineFits(l) && LineTokens(l) == ts && LineTree(l) == c
      ensures Parse(ts) == Some(c)
    {
      LineParses(l, []);
      assert LineTokens(l) + [] == ts;
    }
  }

  /** A line with ten words to a command makes the parser panic. */
  lemma TenWordsPanic(l: Sentence<Span>)
    requires LineOk(l) && !LineFits(l)
    ensures Parse(LineTokens(l)) == None
  {
    LineParses(l, []);
    assert LineTokens(l) + [] == LineTokens(l);
  }
}
