/** Printing a command tree with a parenthesis around every part, and parsing it back. */
module ShellPrinter {
  import opened Basics
  import opened ShellSyntax

  // ---------- the tokens of a tree ----------

  function WordTokens(argv: seq<Span>): (ts: seq<Token>)
    ensures |ts| == |argv| && forall k :: 0 <= k < |ts| ==> ts[k] == Word(argv[k])
  {
    seq(|argv|, k requires 0 <= k < |argv| => Word(argv[k]))
  }

  function Boxed(ts: seq<Token>): seq<Token> {
    [Sym('(')] + ts + [Sym(')')]
  }

  function Tokens(c: Cmd<Span>): seq<Token> {
    match c
    case Exec(argv) => WordTokens(argv)
    case Redir(d, file, mode) => Boxed(Tokens(d)) + [OpToken(mode), Word(file)]
    case Pipe(l, r) => Boxed(Tokens(l)) + [Sym('|')] + Boxed(Tokens(r))
    case List(l, r) => Boxed(Tokens(l)) + [Sym(';')] + Boxed(Tokens(r))
    case Back(d) => Boxed(Tokens(d)) + [Sym('&')]
  }

  /** At most nine words to a command. */
  predicate Small<W>(c: Cmd<W>) {
    match c
    case Exec(argv) => |argv| < MAXARGS
    case Redir(d, _, _) => Small(d)
    case Pipe(l, r) => Small(l) && Small(r)
    case List(l, r) => Small(l) && Small(r)
    case Back(d) => Small(d)
  }

  predicate Closes(ts: seq<Token>) {
    ts == [] || Starts(ts, ')')
  }

  lemma {:induction false} WordsOf(done: seq<Span>, argv: seq<Span>, rest: seq<Token>)
    requires |done| + |argv| < MAXARGS && Closes(rest)
    ensures Words(Exec(done), WordTokens(argv) + rest) == Some((Exec(done + argv), rest))
    decreases |argv|
  {
    var ts := WordTokens(argv) + rest;
    if argv == [] {
      assert ts == rest && done + argv == done;
    } else {
      assert ts[1..] == WordTokens(argv[1..]) + rest;
      assert Redirs(Exec(done + [argv[0]]), ts[1..]) == Some((Exec(done + [argv[0]]), ts[1..]));
      WordsOf(done + [argv[0]], argv[1..], rest);
      assert done + [argv[0]] + argv[1..] == done + argv;
    }
  }

  lemma ExecCase(argv: seq<Span>, rest: seq<Token>)
    requires |argv| < MAXARGS && Closes(rest)
    ensures Line(WordTokens(argv) + rest) == Some((Exec(argv), rest))
  {
    var ts := WordTokens(argv) + rest;
    WordsOf([], argv, rest);
    assert [] + argv == argv;
    assert !Starts(ts, '(') && !StartsRedir(ts) by {
      if argv == [] {
        assert ts == rest;
      } else {
        assert ts[0] == Word(argv[0]);
      }
    }
    assert ExecP(ts) == Words(Exec([]), ts);
    assert PipeP(ts) == Some((Exec(argv), rest));
  }

  /** A parenthesised line, and any redirections after it. */
  lemma BoxParses(ts: seq<Token>, c: Cmd<Span>, rest: seq<Token>)
    requires Line(ts + ([Sym(')')] + rest)) == Some((c, [Sym(')')] + rest))
    ensures ExecP(Boxed(ts) + rest) == Redirs(c, rest)
  {
    var all := Boxed(ts) + rest;
    assert all[1..] == ts + ([Sym(')')] + rest);
    assert ([Sym(')')] + rest)[1..] == rest;
  }

  lemma Regroup(a: seq<Token>, b: seq<Token>, c: seq<Token>)
    ensures a + b + c == a + (b + c)
  {
  }

  lemma RedirCase(ts: seq<Token>, d: Cmd<Span>, file: Span, mode: Mode, rest: seq<Token>)
    requires Closes(rest)
    requires var tail := [Sym(')')] + ([OpToken(mode), Word(file)] + rest); Line(ts + tail) == Some((d, tail))
    ensures Line(Boxed(ts) + [OpToken(mode), Word(file)] + rest) == Some((Redir(d, file, mode), rest))
  {
    var tail := [OpToken(mode), Word(file)] + rest;
    BoxParses(ts, d, tail);
    RedirStep(Boxed(ts) + tail, d, file, mode, rest);
    Regroup(Boxed(ts), [OpToken(mode), Word(file)], rest);
  }

  lemma RedirStep(all: seq<Token>, d: Cmd<Span>, file: Span, mode: Mode, rest: seq<Token>)
    requires Closes(rest) && ExecP(all) == Redirs(d, [OpToken(mode), Word(file)] + rest)
    ensures Line(all) == Some((Redir(d, file, mode), rest))
  {
    var tail := [OpToken(mode), Word(file)] + rest;
    assert tail[2..] == rest;
    assert Redirs(d, tail) == Some((Redir(d, file, mode), rest));
    assert PipeP(all) == Some((Redir(d, file, mode), rest));
  }

  lemma BackCase(ts: seq<Token>, d: Cmd<Span>, rest: seq<Token>)
    requires Closes(rest)
    requires var tail := [Sym(')')] + ([Sym('&')] + rest); Line(ts + tail) == Some((d, tail))
    ensures Line(Boxed(ts) + [Sym('&')] + rest) == Some((Back(d), rest))
  {
    BoxParses(ts, d, [Sym('&')] + rest);
    BackStep(Boxed(ts) + ([Sym('&')] + rest), d, rest);
    Regroup(Boxed(ts), [Sym('&')], rest);
  }

  lemma BackStep(all: seq<Token>, d: Cmd<Span>, rest: seq<Token>)
    requires Closes(rest) && ExecP(all) == Redirs(d, [Sym('&')] + rest)
    ensures Line(all) == Some((Back(d), rest))
  {
    var tail := [Sym('&')] + rest;
    assert PipeP(all) == Some((d, tail));
    assert tail[1..] == rest;
    assert Backs(d, tail) == (Back(d), rest);
  }

  /** The tokens of two boxes with an operator between, and the two readings they are made of. */
  ghost predicate TwoBoxes(l: Cmd<Span>, op: char, us: seq<Token>, r: Cmd<Span>, rest: seq<Token>, all: seq<Token>) {
    && Closes(rest) && ExecP(us + rest) == Redirs(r, rest)
    && ExecP(all) == Redirs(l, [Sym(op)] + (us + rest))
  }

  lemma PipeStep(l: Cmd<Span>, us: seq<Token>, r: Cmd<Span>, rest: seq<Token>, all: seq<Token>)
    requires TwoBoxes(l, '|', us, r, rest, all)
    ensures Line(all) == Some((Pipe(l, r), rest))
  {
    var tail := [Sym('|')] + (us + rest);
    assert tail[1..] == us + rest;
    assert PipeP(us + rest) == Some((r, rest));
    assert PipeP(all) == Some((Pipe(l, r), rest));
  }

  lemma ListStep(l: Cmd<Span>, us: seq<Token>, r: Cmd<Span>, rest: seq<Token>, all: seq<Token>)
    requires TwoBoxes(l, ';', us, r, rest, all)
    ensures Line(all) == Some((List(l, r), rest))
  {
    var tail := [Sym(';')] + (us + rest);
    assert tail[1..] == us + rest;
    assert PipeP(us + rest) == Some((r, rest));
    assert Line(us + rest) == Some((r, rest));
    assert PipeP(all) == Some((l, tail));
    assert Backs(l, tail) == (l, tail);
  }

  lemma TwoCase(ts: seq<Token>, l: Cmd<Span>, op: char, us: seq<Token>, r: Cmd<Span>, rest: seq<Token>)
    requires Closes(rest) && (op == '|' || op == ';')
    requires var tail := [Sym(')')] + ([Sym(op)] + (Boxed(us) + rest)); Line(ts + tail) == Some((l, tail))
    requires var tail := [Sym(')')] + rest; Line(us + tail) == Some((r, tail))
    ensures Line(Boxed(ts) + [Sym(op)] + Boxed(us) + rest) == Some((if op == '|' then Pipe(l, r) else List(l, r), rest))
  {
    BoxParses(ts, l, [Sym(op)] + (Boxed(us) + rest));
    BoxParses(us, r, rest);
    var all := Boxed(ts) + ([Sym(op)] + (Boxed(us) + rest));
    Regroup(Boxed(ts) + [Sym(op)], Boxed(us), rest);
    Regroup(Boxed(ts), [Sym(op)], Boxed(us) + rest);
    if op == '|' {
      PipeStep(l, Boxed(us), r, rest, all);
    } else {
      ListStep(l, Boxed(us), r, rest, all);
    }
  }

  /** The grammar reads the tokens of a tree as that tree. */
  lemma {:induction false} LineParses(c: Cmd<Span>, rest: seq<Token>)
    requires Small(c) && Closes(rest)
    ensures Line(Tokens(c) + rest) == Some((c, rest))
    decreases c
  {
    match c
    case Exec(argv) => ExecCase(argv, rest);
    case Redir(d, file, mode) =>
      LineParses(d, [Sym(')')] + ([OpToken(mode), Word(file)] + rest));
      RedirCase(Tokens(d), d, file, mode, rest);
    case Pipe(l, r) =>
      LineParses(l, [Sym(')')] + ([Sym('|')] + (Boxed(Tokens(r)) + rest)));
      LineParses(r, [Sym(')')] + rest);
      TwoCase(Tokens(l), l, '|', Tokens(r), r, rest);
    case List(l, r) =>
      LineParses(l, [Sym(')')] + ([Sym(';')] + (Boxed(Tokens(r)) + rest)));
      LineParses(r, [Sym(')')] + rest);
      TwoCase(Tokens(l), l, ';', Tokens(r), r, rest);
    case Back(d) =>
      LineParses(d, [Sym(')')] + ([Sym('&')] + rest));
      BackCase(Tokens(d), d, rest);
  }

  // ---------- too many words ----------

  lemma {:induction false} WordsOverflow(done: seq<Span>, argv: seq<Span>, rest: seq<Token>)
    requires |done| < MAXARGS <= |done| + |argv|
    ensures Words(Exec(done), WordTokens(argv) + rest) == None
    decreases |argv|
  {
    var ts := WordTokens(argv) + rest;
    assert ts[0] == Word(argv[0]) && ts[1..] == WordTokens(argv[1..]) + rest;
    if |done| + 1 < MAXARGS {
      assert Redirs(Exec(done + [argv[0]]), ts[1..]) == Some((Exec(done + [argv[0]]), ts[1..])) by {
        assert ts[1..][0] == Word(argv[1]);
      }
      WordsOverflow(done + [argv[0]], argv[1..], rest);
    }
  }

  lemma ExecFails(argv: seq<Span>, rest: seq<Token>)
    requires |argv| >= MAXARGS
    ensures Line(WordTokens(argv) + rest) == None
  {
    var ts := WordTokens(argv) + rest;
    WordsOverflow([], argv, rest);
    assert ts[0] == Word(argv[0]);
    assert ExecP(ts) == Words(Exec([]), ts);
    assert PipeP(ts) == None;
  }

  lemma BoxFails(ts: seq<Token>, rest: seq<Token>)
    requires Line(ts + ([Sym(')')] + rest)) == None
    ensures ExecP(Boxed(ts) + rest) == None && Line(Boxed(ts) + rest) == None
  {
    var all := Boxed(ts) + rest;
    assert all[1..] == ts + ([Sym(')')] + rest);
    assert Block(all) == None && ExecP(all) == None;
    assert PipeP(all) == None;
  }

  lemma RightFails(all: seq<Token>, l: Cmd<Span>, op: char, right: seq<Token>)
    requires (op == '|' || op == ';') && ExecP(all) == Redirs(l, [Sym(op)] + right) && ExecP(right) == None
    ensures Line(all) == None
  {
    var tail := [Sym(op)] + right;
    assert tail[1..] == right && PipeP(right) == None;
    if op == '|' {
      assert PipeP(all) == None;
    } else {
      assert PipeP(all) == Some((l, tail)) && Line(right) == None;
      assert Backs(l, tail) == (l, tail);
    }
  }

  lemma {:induction false} TwoFails(c: Cmd<Span>, l: Cmd<Span>, op: char, r: Cmd<Span>, rest: seq<Token>)
    requires (op == '|' || op == ';') && l < c && r < c && !(Small(l) && Small(r)) && Closes(rest)
    ensures Line(Boxed(Tokens(l)) + [Sym(op)] + Boxed(Tokens(r)) + rest) == None
    decreases c, 0
  {
    var right := Boxed(Tokens(r)) + rest;
    Regroup(Boxed(Tokens(l)) + [Sym(op)], Boxed(Tokens(r)), rest);
    Regroup(Boxed(Tokens(l)), [Sym(op)], right);
    if Small(l) {
      LineParses(l, [Sym(')')] + ([Sym(op)] + right));
      BoxParses(Tokens(l), l, [Sym(op)] + right);
      LineFails(r, [Sym(')')] + rest);
      BoxFails(Tokens(r), rest);
      RightFails(Boxed(Tokens(l)) + ([Sym(op)] + right), l, op, right);
    } else {
      LineFails(l, [Sym(')')] + ([Sym(op)] + right));
      BoxFails(Tokens(l), [Sym(op)] + right);
    }
  }

  /** A tree with a command of ten words or more makes the parser panic. */
  lemma {:induction false} LineFails(c: Cmd<Span>, rest: seq<Token>)
    requires !Small(c) && Closes(rest)
    ensures Line(Tokens(c) + rest) == None
    decreases c, 1
  {
    match c
    case Exec(argv) => ExecFails(argv, rest);
    case Redir(d, file, mode) =>
      var tail := [OpToken(mode), Word(file)] + rest;
      LineFails(d, [Sym(')')] + tail);
      BoxFails(Tokens(d), tail);
      Regroup(Boxed(Tokens(d)), [OpToken(mode), Word(file)], rest);
    case Pipe(l, r) => TwoFails(c, l, '|', r, rest);
    case List(l, r) => TwoFails(c, l, ';', r, rest);
    case Back(d) =>
      LineFails(d, [Sym(')')] + ([Sym('&')] + rest));
      BoxFails(Tokens(d), [Sym('&')] + rest);
      Regroup(Boxed(Tokens(d)), [Sym('&')], rest);
  }

  // ---------- the text of a tree ----------

  predicate IsWord(w: string) {
    w != [] && forall k :: 0 <= k < |w| ==> IsWordChar(w[k])
  }

  predicate Printable(c: Cmd<string>) {
    match c
    case Exec(argv) => forall k :: 0 <= k < |argv| ==> IsWord(argv[k])
    case Redir(d, file, _) => Printable(d) && IsWord(file)
    case Pipe(l, r) => Printable(l) && Printable(r)
    case List(l, r) => Printable(l) && Printable(r)
    case Back(d) => Printable(d)
  }

  function Op(m: Mode): string {
    match m
    case Read => "<"
    case Write => ">"
    case Append => ">>"
  }

  function Box(p: string): (b: string)
    ensures |b| == |p| + 2
  {
    "(" + p + ")"
  }

  function PrintWords(argv: seq<string>): string {
    if argv == [] then "" else " " + argv[0] + PrintWords(argv[1..])
  }

  function Print(c: Cmd<string>): string {
    match c
    case Exec(argv) => PrintWords(argv)
    case Redir(d, file, mode) => Box(Print(d)) + Op(mode) + file
    case Pipe(l, r) => Box(Print(l)) + ['|'] + Box(Print(r))
    case List(l, r) => Box(Print(l)) + [';'] + Box(Print(r))
    case Back(d) => Box(Print(d)) + ['&']
  }

  /** Where the words of the printed tree are, when it is printed at position at. */
  function PlaceWords(argv: seq<string>, at: nat): (p: seq<Span>)
    ensures |p| == |argv|
  {
    if argv == [] then [] else [Span(at + 1, at + 1 + |argv[0]|)] + PlaceWords(argv[1..], at + 1 + |argv[0]|)
  }

  function Place(c: Cmd<string>, at: nat): Cmd<Span> {
    match c
    case Exec(argv) => Exec(PlaceWords(argv, at))
    case Redir(d, file, mode) =>
      var b := at + |Print(d)| + 2 + |Op(mode)|;
      Redir(Place(d, at + 1), Span(b, b + |file|), mode)
    case Pipe(l, r) => Pipe(Place(l, at + 1), Place(r, at + |Print(l)| + 4))
    case List(l, r) => List(Place(l, at + 1), Place(r, at + |Print(l)| + 4))
    case Back(d) => Back(Place(d, at + 1))
  }

  /** s has p at position at. */
  predicate Has(s: string, at: nat, p: string) {
    at + |p| <= |s| && forall k {:trigger p[k]} :: 0 <= k < |p| ==> p[k] == s[at + k]
  }

  lemma HasPart(s: string, at: nat, p: string, q: string)
    requires Has(s, at, p + q)
    ensures Has(s, at, p) && Has(s, at + |p|, q)
  {
    forall k | 0 <= k < |p|
      ensures p[k] == s[at + k]
    {
      assert (p + q)[k] == p[k];
    }
    forall k | 0 <= k < |q|
      ensures q[k] == s[at + |p| + k]
    {
      assert (p + q)[|p| + k] == q[k];
    }
  }

  lemma HasThree(s: string, at: nat, p: string, q: string, r: string)
    requires Has(s, at, p + q + r)
    ensures Has(s, at, p) && Has(s, at + |p|, q) && Has(s, at + |p| + |q|, r)
  {
    HasPart(s, at, p + q, r);
    HasPart(s, at, p, q);
  }

  /** The inside of a parenthesised part. */
  predicate InBox(s: string, at: nat, p: string) {
    && at + |p| + 2 <= |s| && s[at] == '(' && s[at + 1 + |p|] == ')'
    && Has(s, at + 1, p) && Ends(s, at + 1 + |p|)
  }

  predicate Ends(s: string, i: nat) {
    i <= |s| && (i < |s| ==> s[i] == ')')
  }

  lemma HasBox(s: string, at: nat, p: string)
    requires Has(s, at, Box(p))
    ensures InBox(s, at, p)
  {
    HasThree(s, at, "(", p, ")");
    assert "("[0] == s[at] && ")"[0] == s[at + 1 + |p|];
  }

  lemma HasMark(s: string, at: nat, op: char)
    requires Has(s, at, [op])
    ensures at < |s| && s[at] == op
  {
    assert [op][0] == s[at];
  }

  lemma HasPair(s: string, at: nat, p: string, op: char, q: string)
    requires Has(s, at, Box(p) + [op] + Box(q))
    ensures InBox(s, at, p) && InBox(s, at + |p| + 3, q) && s[at + |p| + 2] == op
  {
    HasThree(s, at, Box(p), [op], Box(q));
    HasBox(s, at, p);
    HasBox(s, at + |p| + 3, q);
    HasMark(s, at + |p| + 2, op);
  }

  lemma HasBack(s: string, at: nat, p: string)
    requires Has(s, at, Box(p) + ['&'])
    ensures InBox(s, at, p) && at + |p| + 2 < |s| && s[at + |p| + 2] == '&'
  {
    HasPart(s, at, Box(p), ['&']);
    HasBox(s, at, p);
    HasMark(s, at + |p| + 2, '&');
  }

  lemma HasRedir(s: string, at: nat, p: string, mode: Mode, file: string)
    requires Has(s, at, Box(p) + Op(mode) + file)
    ensures InBox(s, at, p) && Has(s, at + |p| + 2, Op(mode)) && Has(s, at + |p| + 2 + |Op(mode)|, file)
  {
    HasThree(s, at, Box(p), Op(mode), file);
    HasBox(s, at, p);
  }

  // ---------- lexing what was printed

  /** From i to j the text holds the tokens ts. */
  ghost predicate Reads(s: string, i: nat, ts: seq<Token>, j: nat) {
    i <= |s| && j <= |s| && NoNul(s) && Lex(s, i) == ts + Lex(s, j)
  }

  lemma LexSpace(s: string, i: nat)
    requires i < |s| && NoNul(s) && IsSpace(s[i])
    ensures Lex(s, i) == Lex(s, i + 1)
  {
  }

  lemma LexSymbol(s: string, i: nat)
    requires i < |s| && NoNul(s) && IsSymbol(s[i]) && s[i] != '>'
    ensures Lex(s, i) == [Sym(s[i])] + Lex(s, i + 1)
  {
  }

  lemma {:induction false} SkipWordTo(s: string, i: nat, j: nat)
    requires i <= j <= |s| && (forall k :: i <= k < j ==> IsWordChar(s[k])) && (j < |s| ==> !IsWordChar(s[j]))
    ensures SkipWord(s, i) == j
    decreases j - i
  {
    if i < j {
      SkipWordTo(s, i + 1, j);
    }
  }

  lemma LexWord(s: string, i: nat, w: string)
    requires NoNul(s) && IsWord(w) && Has(s, i, w) && (i + |w| < |s| ==> !IsWordChar(s[i + |w|]))
    ensures Lex(s, i) == [Word(Span(i, i + |w|))] + Lex(s, i + |w|)
  {
    forall k | i <= k < i + |w|
      ensures IsWordChar(s[k])
    {
      assert w[k - i] == s[i + (k - i)];
    }
    SkipWordTo(s, i + 1, i + |w|);
  }

  lemma LexOp(s: string, i: nat, m: Mode)
    requires NoNul(s) && Has(s, i, Op(m)) && i + |Op(m)| < |s| && IsWordChar(s[i + |Op(m)|])
    ensures Lex(s, i) == [OpToken(m)] + Lex(s, i + |Op(m)|)
  {
    assert Op(m)[0] == s[i];
    assert m == Append ==> Op(m)[1] == s[i + 1];
  }

  lemma ReadWord(s: string, at: nat, w: string, next: nat)
    requires NoNul(s) && IsWord(w) && Has(s, at, " " + w) && next == at + 1 + |w|
    requires (next < |s| ==> !IsWordChar(s[next]))
    ensures Reads(s, at, [Word(Span(at + 1, next))], next)
  {
    HasPart(s, at, " ", w);
    assert " "[0] == s[at];
    LexSpace(s, at);
    LexWord(s, at + 1, w);
  }

  lemma MoreWords(w: Span, ws: seq<Span>)
    ensures WordTokens([w] + ws) == [Word(w)] + WordTokens(ws)
  {
  }

  lemma {:induction false} ReadWords(s: string, at: nat, argv: seq<string>)
    requires NoNul(s) && Has(s, at, PrintWords(argv)) && Ends(s, at + |PrintWords(argv)|)
    requires forall k :: 0 <= k < |argv| ==> IsWord(argv[k])
    ensures Reads(s, at, WordTokens(PlaceWords(argv, at)), at + |PrintWords(argv)|)
    decreases |argv|
  {
    if argv == [] {
      assert WordTokens(PlaceWords(argv, at)) == [];
    } else {
      var w, more := argv[0], PrintWords(argv[1..]);
      var next := at + 1 + |w|;
      HasPart(s, at, " " + w, more);
      WordEnds(s, next, argv[1..]);
      ReadWord(s, at, w, next);
      ReadWords(s, next, argv[1..]);
      MoreWords(Span(at + 1, next), PlaceWords(argv[1..], next));
      Chain(s, at, [Word(Span(at + 1, next))], next, WordTokens(PlaceWords(argv[1..], next)), next + |more|);
    }
  }

  /** What follows a word in a printed command is not part of the word. */
  lemma WordEnds(s: string, i: nat, argv: seq<string>)
    requires Has(s, i, PrintWords(argv)) && Ends(s, i + |PrintWords(argv)|)
    ensures i < |s| ==> !IsWordChar(s[i])
  {
    if argv != [] {
      HasPart(s, i, " " + argv[0], PrintWords(argv[1..]));
      HasPart(s, i, " ", argv[0]);
      assert " "[0] == s[i];
    }
  }

  lemma Chain(s: string, i: nat, a: seq<Token>, j: nat, b: seq<Token>, k: nat)
    requires Reads(s, i, a, j) && Reads(s, j, b, k)
    ensures Reads(s, i, a + b, k)
  {
    Regroup(a, b, Lex(s, k));
  }

  lemma ReadSymbol(s: string, i: nat)
    requires i < |s| && NoNul(s) && IsSymbol(s[i]) && s[i] != '>'
    ensures Reads(s, i, [Sym(s[i])], i + 1)
  {
    LexSymbol(s, i);
  }

  /** A parenthesised part from i to k. */
  lemma ReadBox(s: string, i: nat, ts: seq<Token>, j: nat, k: nat)
    requires i < |s| && s[i] == '(' && Reads(s, i + 1, ts, j) && j < |s| && s[j] == ')' && k == j + 1
    ensures Reads(s, i, Boxed(ts), k)
  {
    ReadSymbol(s, i);
    ReadSymbol(s, j);
    Chain(s, i, [Sym('(')], i + 1, ts, j);
    Chain(s, i, [Sym('(')] + ts, j, [Sym(')')], k);
  }

  lemma ReadBack(s: string, at: nat, p: string, ts: seq<Token>, all: seq<Token>, j: nat)
    requires all == Boxed(ts) + [Sym('&')]
    requires Has(s, at, Box(p) + ['&']) && Reads(s, at + 1, ts, at + 1 + |p|) && j == at + |p| + 3
    ensures Reads(s, at, all, j)
  {
    HasBack(s, at, p);
    var i := at + |p| + 2;
    ReadBox(s, at, ts, at + 1 + |p|, i);
    ReadSymbol(s, i);
    Chain(s, at, Boxed(ts), i, [Sym('&')], j);
  }

  lemma ReadPair(s: string, at: nat, p: string, ts: seq<Token>, op: char, q: string, us: seq<Token>, all: seq<Token>,
                 j: nat)
    requires all == Boxed(ts) + [Sym(op)] + Boxed(us)
    requires (op == '|' || op == ';') && Has(s, at, Box(p) + [op] + Box(q)) && j == at + |p| + |q| + 5
    requires Reads(s, at + 1, ts, at + 1 + |p|) && Reads(s, at + |p| + 4, us, at + |p| + 4 + |q|)
    ensures Reads(s, at, all, j)
  {
    HasPair(s, at, p, op, q);
    var i := at + |p| + 2;
    ReadBox(s, at, ts, at + 1 + |p|, i);
    ReadSymbol(s, i);
    ReadBox(s, i + 1, us, at + |p| + 4 + |q|, j);
    Chain(s, at, Boxed(ts), i, [Sym(op)], i + 1);
    Chain(s, at, Boxed(ts) + [Sym(op)], i + 1, Boxed(us), j);
  }

  lemma ReadRedir(s: string, at: nat, p: string, ts: seq<Token>, mode: Mode, file: string, b: nat, all: seq<Token>,
                  j: nat)
    requires all == Boxed(ts) + [OpToken(mode), Word(Span(b, j))]
    requires IsWord(file) && Has(s, at, Box(p) + Op(mode) + file) && Reads(s, at + 1, ts, at + 1 + |p|)
    requires b == at + |p| + 2 + |Op(mode)| && j == b + |file| && Ends(s, j)
    ensures Reads(s, at, all, j)
  {
    HasRedir(s, at, p, mode, file);
    var i := at + |p| + 2;
    ReadBox(s, at, ts, at + 1 + |p|, i);
    ReadTarget(s, i, mode, file, b, j);
    Chain(s, at, Boxed(ts), i, [OpToken(mode), Word(Span(b, j))], j);
  }

  lemma ReadTarget(s: string, i: nat, mode: Mode, file: string, b: nat, j: nat)
    requires NoNul(s) && IsWord(file) && Has(s, i, Op(mode)) && Has(s, b, file)
    requires b == i + |Op(mode)| && j == b + |file| && Ends(s, j)
    ensures Reads(s, i, [OpToken(mode), Word(Span(b, j))], j)
  {
    assert file[0] == s[b];
    LexOp(s, i, mode);
    LexWord(s, b, file);
    assert [OpToken(mode)] + [Word(Span(b, j))] == [OpToken(mode), Word(Span(b, j))];
    Chain(s, i, [OpToken(mode)], b, [Word(Span(b, j))], j);
  }

  /** The tokens of a printed tree, whatever stands before it and after it. */
  lemma {:induction false} ReadPrint(s: string, at: nat, c: Cmd<string>)
    requires NoNul(s) && Printable(c) && Has(s, at, Print(c)) && Ends(s, at + |Print(c)|)
    ensures Reads(s, at, Tokens(Place(c, at)), at + |Print(c)|)
    decreases c, 1
  {
    var all, j := Tokens(Place(c, at)), at + |Print(c)|;
    match c
    case Exec(argv) =>
      assert all == WordTokens(PlaceWords(argv, at)) && j == at + |PrintWords(argv)|;
      ReadWords(s, at, argv);
    case Redir(d, file, mode) =>
      ReadInto(s, at, c, d, mode, file, at + |Print(d)| + 2 + |Op(mode)|, all, j);
    case Pipe(l, r) =>
      ReadTwo(s, at, c, l, '|', r, all, j);
    case List(l, r) =>
      ReadTwo(s, at, c, l, ';', r, all, j);
    case Back(d) =>
      ReadAfter(s, at, c, d, all, j);
  }

  lemma {:induction false} ReadAfter(s: string, at: nat, c: Cmd<string>, d: Cmd<string>, all: seq<Token>, j: nat)
    requires d < c && NoNul(s) && Printable(d) && Has(s, at, Box(Print(d)) + ['&']) && j == at + |Print(d)| + 3
    requires all == Boxed(Tokens(Place(d, at + 1))) + [Sym('&')]
    ensures Reads(s, at, all, j)
    decreases c, 0
  {
    HasBack(s, at, Print(d));
    ReadPrint(s, at + 1, d);
    ReadBack(s, at, Print(d), Tokens(Place(d, at + 1)), all, j);
  }

  lemma {:induction false} ReadInto(s: string, at: nat, c: Cmd<string>, d: Cmd<string>, mode: Mode, file: string,
                                    b: nat, all: seq<Token>, j: nat)
    requires d < c && NoNul(s) && Printable(d) && IsWord(file) && Ends(s, j)
    requires Has(s, at, Box(Print(d)) + Op(mode) + file) && b == at + |Print(d)| + 2 + |Op(mode)| && j == b + |file|
    requires all == Boxed(Tokens(Place(d, at + 1))) + [OpToken(mode), Word(Span(b, j))]
    ensures Reads(s, at, all, j)
    decreases c, 0
  {
    HasRedir(s, at, Print(d), mode, file);
    ReadPrint(s, at + 1, d);
    ReadRedir(s, at, Print(d), Tokens(Place(d, at + 1)), mode, file, b, all, j);
  }

  lemma {:induction false} ReadTwo(s: string, at: nat, c: Cmd<string>, l: Cmd<string>, op: char, r: Cmd<string>,
                                   all: seq<Token>, j: nat)
    requires l < c && r < c && NoNul(s) && Printable(l) && Printable(r) && (op == '|' || op == ';')
    requires Has(s, at, Box(Print(l)) + [op] + Box(Print(r))) && j == at + |Print(l)| + |Print(r)| + 5
    requires all == Boxed(Tokens(Place(l, at + 1))) + [Sym(op)] + Boxed(Tokens(Place(r, at + |Print(l)| + 4)))
    ensures Reads(s, at, all, j)
    decreases c, 0
  {
    var m := at + |Print(l)| + 4;
    HasPair(s, at, Print(l), op, Print(r));
    ReadPrint(s, at + 1, l);
    ReadPrint(s, m, r);
    ReadPair(s, at, Print(l), Tokens(Place(l, at + 1)), op, Print(r), Tokens(Place(r, m)), all, j);
  }

  // ---------- reading the words ----------

  function Slice(s: string, w: Span): string {
    if w.b <= w.e <= |s| then s[w.b..w.e] else ""
  }

  lemma SliceIs(s: string, b: nat, w: string)
    requires Has(s, b, w)
    ensures Slice(s, Span(b, b + |w|)) == w
  {
    assert s[b..b + |w|] == w;
  }

  function TextOf(s: string, c: Cmd<Span>): Cmd<string> {
    match c
    case Exec(argv) => Exec(seq(|argv|, k requires 0 <= k < |argv| => Slice(s, argv[k])))
    case Redir(d, file, mode) => Redir(TextOf(s, d), Slice(s, file), mode)
    case Pipe(l, r) => Pipe(TextOf(s, l), TextOf(s, r))
    case List(l, r) => List(TextOf(s, l), TextOf(s, r))
    case Back(d) => Back(TextOf(s, d))
  }

  lemma {:induction false} TextOfWords(s: string, at: nat, argv: seq<string>, k: nat)
    requires Has(s, at, PrintWords(argv)) && k < |argv|
    ensures Slice(s, PlaceWords(argv, at)[k]) == argv[k]
    decreases |argv|
  {
    HasPart(s, at, " " + argv[0], PrintWords(argv[1..]));
    HasPart(s, at, " ", argv[0]);
    if k > 0 {
      TextOfWords(s, at + 1 + |argv[0]|, argv[1..], k - 1);
    }
  }

  lemma TextOfExec(s: string, at: nat, argv: seq<string>)
    requires Has(s, at, PrintWords(argv))
    ensures TextOf(s, Exec(PlaceWords(argv, at))) == Exec(argv)
  {
    var p := PlaceWords(argv, at);
    forall k | 0 <= k < |argv|
      ensures Slice(s, p[k]) == argv[k]
    {
      TextOfWords(s, at, argv, k);
    }
    assert seq(|p|, k requires 0 <= k < |p| => Slice(s, p[k])) == argv;
  }

  lemma {:induction false} TextOfPlace(s: string, at: nat, c: Cmd<string>)
    requires Has(s, at, Print(c))
    ensures TextOf(s, Place(c, at)) == c
    decreases c, 1
  {
    match c
    case Exec(argv) => TextOfExec(s, at, argv);
    case Redir(_, _, _) => TextOfRedir(s, at, c);
    case Pipe(_, _) => TextOfPair(s, at, c);
    case List(_, _) => TextOfPair(s, at, c);
    case Back(_) => TextOfBack(s, at, c);
  }

  lemma {:induction false} TextOfRedir(s: string, at: nat, c: Cmd<string>)
    requires c.Redir? && Has(s, at, Print(c))
    ensures TextOf(s, Place(c, at)) == c
    decreases c, 0
  {
    HasRedir(s, at, Print(c.cmd), c.mode, c.file);
    SliceIs(s, at + |Print(c.cmd)| + 2 + |Op(c.mode)|, c.file);
    TextOfPlace(s, at + 1, c.cmd);
  }

  lemma {:induction false} TextOfBack(s: string, at: nat, c: Cmd<string>)
    requires c.Back? && Has(s, at, Print(c))
    ensures TextOf(s, Place(c, at)) == c
    decreases c, 0
  {
    HasBack(s, at, Print(c.cmd));
    TextOfPlace(s, at + 1, c.cmd);
  }

  lemma {:induction false} TextOfPair(s: string, at: nat, c: Cmd<string>)
    requires (c.Pipe? || c.List?) && Has(s, at, Print(c))
    ensures TextOf(s, Place(c, at)) == c
    decreases c, 0
  {
    HasPair(s, at, Print(c.left), if c.Pipe? then '|' else ';', Print(c.right));
    TextOfPlace(s, at + 1, c.left);
    TextOfPlace(s, at + |Print(c.left)| + 4, c.right);
  }

  lemma {:induction false} SmallPlace(c: Cmd<string>, at: nat)
    ensures Small(c) <==> Small(Place(c, at))
    decreases c
  {
    match c
    case Exec(argv) =>
    case Redir(d, _, _) => SmallPlace(d, at + 1);
    case Pipe(l, r) => SmallPlace(l, at + 1); SmallPlace(r, at + |Print(l)| + 4);
    case List(l, r) => SmallPlace(l, at + 1); SmallPlace(r, at + |Print(l)| + 4);
    case Back(d) => SmallPlace(d, at + 1);
  }

  lemma {:induction false} PrintNoNul(c: Cmd<string>)
    requires Printable(c)
    ensures NoNul(Print(c))
    decreases c
  {
    match c
    case Exec(argv) => WordsNoNul(argv);
    case Redir(d, _, _) => PrintNoNul(d);
    case Pipe(l, r) => PrintNoNul(l); PrintNoNul(r);
    case List(l, r) => PrintNoNul(l); PrintNoNul(r);
    case Back(d) => PrintNoNul(d);
  }

  lemma {:induction false} WordsNoNul(argv: seq<string>)
    requires forall k :: 0 <= k < |argv| ==> IsWord(argv[k])
    ensures NoNul(PrintWords(argv))
    decreases |argv|
  {
    if argv != [] {
      WordsNoNul(argv[1..]);
    }
  }

  /** Parsing the printed form of a tree gives that tree, exactly if no command in it has ten words. */
  lemma RoundTrip(t: Cmd<string>)
    requires Printable(t)
    ensures NoNul(Print(t))
    ensures Small(t) ==> var r := Parse(Lex(Print(t), 0)); r.Some? && TextOf(Print(t), r.value) == t
    ensures !Small(t) ==> Parse(Lex(Print(t), 0)) == None
  {
    var s := Print(t);
    PrintNoNul(t);
    ReadPrint(s, 0, t);
    ReadAll(s, Tokens(Place(t, 0)));
    SmallPlace(t, 0);
    if Small(t) {
      LineParses(Place(t, 0), []);
      TextOfPlace(s, 0, t);
    } else {
      LineFails(Place(t, 0), []);
    }
  }

  lemma ReadAll(s: string, ts: seq<Token>)
    requires Reads(s, 0, ts, |s|)
    ensures ts + [] == Lex(s, 0)
  {
    assert Lex(s, |s|) == [];
  }
}
