/** The shell's parser: a cursor over a character buffer, and the pass that ends every word with a NUL. */
module Shell {
  import opened Basics
  import opened ShellSyntax

  /** The buffer holds the es characters of s and then a NUL. */
  ghost predicate Holds(buf: array<char>, es: nat, s: string)
    reads buf
  {
    && |s| == es < buf.Length && buf[es] == NUL && NoNul(s)
    && forall k {:trigger s[k]} :: 0 <= k < es ==> buf[k] == s[k]
  }

  /** The tokens still to be read at i are ts. */
  ghost predicate Left(s: string, i: nat, ts: seq<Token>) {
    i <= |s| && NoNul(s) && Lex(s, i) == ts
  }

  ghost predicate At(buf: array<char>, es: nat, s: string, i: nat, ts: seq<Token>)
    reads buf
  {
    Holds(buf, es, s) && Left(s, i, ts)
  }

  // ---------- tokens ----------

  method SkipSpaces(buf: array<char>, es: nat, i: nat, ghost s: string) returns (j: nat)
    requires Holds(buf, es, s) && i <= es
    ensures j == SkipSpace(s, i)
  {
    j := i;
    while j < es && IsSpace(buf[j])
      invariant i <= j <= es && SkipSpace(s, j) == SkipSpace(s, i)
    {
      assert s[j] == buf[j];
      j := j + 1;
    }
    assert j < es ==> s[j] == buf[j];
  }

  method SkipWords(buf: array<char>, es: nat, i: nat, ghost s: string) returns (j: nat)
    requires Holds(buf, es, s) && i <= es
    ensures j == SkipWord(s, i)
  {
    j := i;
    while j < es && !IsSpace(buf[j]) && !IsSymbol(buf[j])
      invariant i <= j <= es && SkipWord(s, j) == SkipWord(s, i)
    {
      assert s[j] == buf[j];
      j := j + 1;
    }
    assert j < es ==> s[j] == buf[j];
  }

  /** What gettoken returns for a token. */
  function Code(t: Token): char {
    match t
    case Word(_) => 'a'
    case Sym(c) => c
  }

  /** ret is NUL at the end, and otherwise the code of the first token, which stands at [q, eq). */
  method GetToken(buf: array<char>, es: nat, i: nat, ghost s: string, ghost ts: seq<Token>)
    returns (ret: char, q: nat, eq: nat, j: nat)
    requires At(buf, es, s, i, ts)
    ensures ts == [] ==> ret == NUL && j == es && Left(s, j, [])
    ensures ts != [] ==> ret == Code(ts[0]) && ret != NUL && Left(s, j, ts[1..])
    ensures ret == 'a' <==> ts != [] && ts[0] == Word(Span(q, eq))
  {
    q := SkipSpaces(buf, es, i, s);
    ret, eq := ReadToken(buf, es, q, s);
    j := SkipSpaces(buf, es, eq, s);
    TokenLeft(s, i, q, eq, j);
  }

  /** gettoken for a caller that does not ask where the token stands. */
  method Skip(buf: array<char>, es: nat, i: nat, ghost s: string, ghost ts: seq<Token>) returns (ret: char, j: nat)
    requires At(buf, es, s, i, ts) && ts != []
    ensures ret == Code(ts[0]) && Left(s, j, ts[1..])
  {
    var q, eq;
    ret, q, eq, j := GetToken(buf, es, i, s, ts);
  }

  lemma TokenLeft(s: string, i: nat, q: nat, e: nat, j: nat)
    requires NoNul(s) && i <= |s| && q == SkipSpace(s, i)
    requires if q == |s| then e == q else e == TokenEnd(s, q)
    requires j == SkipSpace(s, e)
    ensures q == |s| ==> Lex(s, i) == [] && Lex(s, j) == [] && j == |s|
    ensures q < |s| ==> Lex(s, i) == [TokenAt(s, q)] + Lex(s, j)
  {
    SkipTwice(s, e);
  }

  lemma {:induction false} SkipTwice(s: string, i: nat)
    requires NoNul(s) && i <= |s|
    ensures SkipSpace(s, SkipSpace(s, i)) == SkipSpace(s, i)
    ensures Lex(s, SkipSpace(s, i)) == Lex(s, i)
  {
  }

  /** The switch on the first character that is not a space. */
  method ReadToken(buf: array<char>, es: nat, q: nat, ghost s: string) returns (ret: char, e: nat)
    requires Holds(buf, es, s) && q <= es && (q < es ==> !IsSpace(s[q]))
    ensures q == es ==> ret == NUL && e == q
    ensures q < es ==> ret == Code(TokenAt(s, q)) && ret != NUL && e == TokenEnd(s, q)
  {
    ret, e := buf[q], q;
    assert q < es ==> s[q] == buf[q];
    assert q + 1 < es ==> s[q + 1] == buf[q + 1];
    if ret == NUL {
    } else if ret == '>' {
      e := e + 1;
      if buf[e] == '>' {
        ret, e := '+', e + 1;
      }
    } else if IsSymbol(ret) {
      e := e + 1;
    } else {
      ret := 'a';
      e := SkipWords(buf, es, q, s);
    }
  }

  /** The character a token begins with, for a symbol. */
  function First(c: char): char {
    if c == '+' then '>' else c
  }

  predicate AllSymbols(toks: string) {
    forall k :: 0 <= k < |toks| ==> IsSymbol(toks[k])
  }

  method Peek(buf: array<char>, es: nat, i: nat, toks: string, ghost s: string, ghost ts: seq<Token>)
    returns (found: bool, j: nat)
    requires At(buf, es, s, i, ts) && AllSymbols(toks)
    ensures Left(s, j, ts) && found == (ts != [] && ts[0].Sym? && First(ts[0].c) in toks)
    ensures ts == [] <==> j == es
  {
    j := SkipSpaces(buf, es, i, s);
    SkipTwice(s, i);
    assert j < es ==> s[j] == buf[j];
    found := buf[j] != NUL && buf[j] in toks;
  }

  // ---------- the parser ----------

  /** r, with the cursor at j, is what the grammar makes of a token list; None is a panic. */
  ghost predicate Agrees(p: Parsed, r: Option<Cmd<Span>>, s: string, j: nat) {
    if p.None? then r == None else r == Some(p.value.0) && Left(s, j, p.value.1)
  }

  method ParseRedirs(cmd: Cmd<Span>, buf: array<char>, es: nat, i: nat, ghost s: string, ghost ts: seq<Token>)
    returns (r: Option<Cmd<Span>>, j: nat)
    requires At(buf, es, s, i, ts)
    ensures Agrees(Redirs(cmd, ts), r, s, j)
  {
    var c := cmd;
    ghost var rest := ts;
    var found: bool;
    found, j := Peek(buf, es, i, "<>", s, ts);
    while found
      invariant Left(s, j, rest) && found == StartsRedir(rest)
      invariant Redirs(cmd, ts) == Redirs(c, rest)
      decreases |rest|
    {
      var tok, code, q, eq;
      tok, j := Skip(buf, es, j, s, rest);
      code, q, eq, j := GetToken(buf, es, j, s, rest[1..]);
      if code != 'a' {
        r := None;
        return;
      }
      c := Redir(c, Span(q, eq), if tok == '<' then Read else if tok == '>' then Write else Append);
      assert rest[1..][1..] == rest[2..];
      rest := rest[2..];
      found, j := Peek(buf, es, j, "<>", s, rest);
    }
    r := Some(c);
  }

  /** A command with its redirections around it. */
  predicate Simple(c: Cmd<Span>) {
    c.Exec? || (c.Redir? && Simple(c.cmd))
  }

  lemma {:induction false} AddWordCounts(c: Cmd<Span>, w: Span)
    requires Simple(c)
    ensures Simple(AddWord(c, w)) && Argc(AddWord(c, w)) == Argc(c) + 1
    decreases c
  {
    if c.Redir? {
      AddWordCounts(c.cmd, w);
    }
  }

  lemma {:induction false} RedirsCount(c: Cmd<Span>, ts: seq<Token>)
    requires Simple(c) && Redirs(c, ts).Some?
    ensures var d := Redirs(c, ts).value.0; Simple(d) && Argc(d) == Argc(c)
    decreases |ts|
  {
    if StartsRedir(ts) {
      RedirsCount(Redir(c, ts[1].w, ModeOf(ts[0].c)), ts[2..]);
    }
  }

  /** One more word, and redirections after it. */
  lemma RoundCounts(c: Cmd<Span>, w: Span, ts: seq<Token>)
    requires Simple(c) && Redirs(AddWord(c, w), ts).Some?
    ensures var d := Redirs(AddWord(c, w), ts).value.0; Simple(d) && Argc(d) == Argc(c) + 1
  {
    AddWordCounts(c, w);
    RedirsCount(AddWord(c, w), ts);
  }

  method ParseExec(buf: array<char>, es: nat, i: nat, ghost s: string, ghost ts: seq<Token>)
    returns (r: Option<Cmd<Span>>, j: nat)
    requires At(buf, es, s, i, ts)
    ensures Agrees(ExecP(ts), r, s, j)
    decreases |ts|, 1
  {
    var found: bool;
    found, j := Peek(buf, es, i, "(", s, ts);
    if found {
      r, j := ParseBlock(buf, es, j, s, ts);
      return;
    }
    r, j := ParseRedirs(Exec([]), buf, es, j, s, ts);
    if r.Some? {
      RedirsCount(Exec([]), ts);
      r, j := ParseWords(r.value, buf, es, j, s, Redirs(Exec([]), ts).value.1);
    }
  }

  /** parseexec's new argument w, and the redirections after it. */
  method ParseArg(cmd: Cmd<Span>, w: Span, buf: array<char>, es: nat, i: nat, ghost s: string, ghost ts: seq<Token>)
    returns (r: Option<Cmd<Span>>, j: nat)
    requires At(buf, es, s, i, ts) && Simple(cmd)
    ensures Agrees(Redirs(AddWord(cmd, w), ts), r, s, j)
    ensures r.Some? ==> Simple(r.value) && Argc(r.value) == Argc(cmd) + 1
  {
    r, j := ParseRedirs(AddWord(cmd, w), buf, es, i, s, ts);
    if r.Some? {
      RoundCounts(cmd, w, ts);
    }
  }

  method ParseWords(cmd: Cmd<Span>, buf: array<char>, es: nat, i: nat, ghost s: string, ghost ts: seq<Token>)
    returns (r: Option<Cmd<Span>>, j: nat)
    requires At(buf, es, s, i, ts) && Simple(cmd) && Argc(cmd) == 0
    ensures Agrees(Words(cmd, ts), r, s, j)
  {
    var argc := 0;
    r := Some(cmd);
    ghost var rest := ts;
    var found: bool;
    found, j := Peek(buf, es, i, "|)&;", s, ts);
    while !found
      invariant r.Some? && Left(s, j, rest) && found == (rest != [] && EndsWords(rest))
      invariant Simple(r.value) && argc == Argc(r.value) < MAXARGS
      invariant Words(cmd, ts) == Words(r.value, rest)
      decreases |rest|
    {
      var tok, q, eq;
      tok, q, eq, j := GetToken(buf, es, j, s, rest);
      if tok == NUL {
        break;
      }
      argc := argc + 1;
      if tok != 'a' || argc >= MAXARGS {
        r := None;
        return;
      }
      ghost var c, more := AddWord(r.value, Span(q, eq)), rest[1..];
      r, j := ParseArg(r.value, Span(q, eq), buf, es, j, s, more);
      if r == None {
        return;
      }
      rest := Redirs(c, more).value.1;
      found, j := Peek(buf, es, j, "|)&;", s, rest);
    }
  }

  method ParseBlock(buf: array<char>, es: nat, i: nat, ghost s: string, ghost ts: seq<Token>)
    returns (r: Option<Cmd<Span>>, j: nat)
    requires At(buf, es, s, i, ts) && Starts(ts, '(')
    ensures Agrees(Block(ts), r, s, j)
    decreases |ts|, 0
  {
    var tok;
    tok, j := Skip(buf, es, i, s, ts);
    r, j := ParseLine(buf, es, j, s, ts[1..]);
    if r == None {
      return;
    }
    ghost var rest := Line(ts[1..]).value.1;
    var found;
    found, j := Peek(buf, es, j, ")", s, rest);
    if !found {
      r := None;
      return;
    }
    tok, j := Skip(buf, es, j, s, rest);
    r, j := ParseRedirs(r.value, buf, es, j, s, rest[1..]);
  }

  method ParsePipe(buf: array<char>, es: nat, i: nat, ghost s: string, ghost ts: seq<Token>)
    returns (r: Option<Cmd<Span>>, j: nat)
    requires At(buf, es, s, i, ts)
    ensures Agrees(PipeP(ts), r, s, j)
    decreases |ts|, 2
  {
    r, j := ParseExec(buf, es, i, s, ts);
    if r == None {
      return;
    }
    ghost var rest := ExecP(ts).value.1;
    var found;
    found, j := Peek(buf, es, j, "|", s, rest);
    if found {
      var tok, left := NUL, r.value;
      tok, j := Skip(buf, es, j, s, rest);
      r, j := ParsePipe(buf, es, j, s, rest[1..]);
      if r.Some? {
        r := Some(Pipe(left, r.value));
      }
    }
  }

  method ParseLine(buf: array<char>, es: nat, i: nat, ghost s: string, ghost ts: seq<Token>)
    returns (r: Option<Cmd<Span>>, j: nat)
    requires At(buf, es, s, i, ts)
    ensures Agrees(Line(ts), r, s, j)
    decreases |ts|, 3
  {
    r, j := ParsePipe(buf, es, i, s, ts);
    if r == None {
      return;
    }
    ghost var rest := Backs(r.value, PipeP(ts).value.1).1;
    var cmd;
    cmd, j := ParseBacks(r.value, buf, es, j, s, PipeP(ts).value.1);
    r := Some(cmd);
    var found;
    found, j := Peek(buf, es, j, ";", s, rest);
    if found {
      var tok;
      tok, j := Skip(buf, es, j, s, rest);
      r, j := ParseLine(buf, es, j, s, rest[1..]);
      if r.Some? {
        r := Some(List(cmd, r.value));
      }
    }
  }

  method ParseBacks(cmd: Cmd<Span>, buf: array<char>, es: nat, i: nat, ghost s: string, ghost ts: seq<Token>)
    returns (c: Cmd<Span>, j: nat)
    requires At(buf, es, s, i, ts)
    ensures c == Backs(cmd, ts).0 && Left(s, j, Backs(cmd, ts).1)
  {
    c := cmd;
    ghost var rest := ts;
    var found;
    found, j := Peek(buf, es, i, "&", s, ts);
    while found
      invariant Left(s, j, rest) && found == Starts(rest, '&')
      invariant Backs(cmd, ts) == Backs(c, rest)
      decreases |rest|
    {
      var tok;
      tok, j := Skip(buf, es, j, s, rest);
      c := Back(c);
      rest := rest[1..];
      found, j := Peek(buf, es, j, "&", s, rest);
    }
  }

  // ---------- ending the words ----------

  function Spans(c: Cmd<Span>): set<Span> {
    match c
    case Exec(argv) => set w | w in argv
    case Redir(d, file, _) => Spans(d) + {file}
    case Pipe(l, r) => Spans(l) + Spans(r)
    case List(l, r) => Spans(l) + Spans(r)
    case Back(d) => Spans(d)
  }

  /** Some word of the command ends at k. */
  ghost predicate EndsAt(c: Cmd<Span>, k: nat) {
    exists w :: w in Spans(c) && w.e == k
  }

  ghost predicate Inside(c: Cmd<Span>, n: nat) {
    forall w :: w in Spans(c) ==> w.e < n
  }

  method NulTerminate(buf: array<char>, c: Cmd<Span>)
    requires Inside(c, buf.Length)
    modifies buf
    ensures forall k: nat :: k < buf.Length ==> buf[k] == if EndsAt(c, k) then NUL else old(buf[k])
    decreases c
  {
    match c
    case Exec(argv) =>
      var i := 0;
      while i < |argv|
        invariant i <= |argv|
        invariant forall k: nat :: k < buf.Length ==> buf[k] == if EndsAt(Exec(argv[..i]), k) then NUL else old(buf[k])
      {
        buf[argv[i].e] := NUL;
        i := i + 1;
      }
    case Redir(d, file, _) =>
      NulTerminate(buf, d);
      buf[file.e] := NUL;
    case Pipe(l, r) =>
      NulTerminate(buf, l);
      NulTerminate(buf, r);
    case List(l, r) =>
      NulTerminate(buf, l);
      NulTerminate(buf, r);
    case Back(d) =>
      NulTerminate(buf, d);
  }

  // ---------- every word of a parsed command is a token ----------

  function WordSpans(ts: seq<Token>): set<Span> {
    set k | 0 <= k < |ts| && ts[k].Word? :: ts[k].w
  }

  /** The parse adds to the words of base only words of ts, and leaves only words of ts. */
  ghost predicate TakesWords(p: Parsed, base: set<Span>, ts: seq<Token>) {
    p.Some? ==> Spans(p.value.0) <= base + WordSpans(ts) && WordSpans(p.value.1) <= WordSpans(ts)
  }

  lemma DropWords(ts: seq<Token>, n: nat)
    requires n <= |ts|
    ensures WordSpans(ts[n..]) <= WordSpans(ts)
  {
    forall k | 0 <= k < |ts[n..]| && ts[n..][k].Word?
      ensures ts[n..][k].w in WordSpans(ts)
    {
      assert ts[n + k] == ts[n..][k];
    }
  }

  lemma {:induction false} AddWordSpans(c: Cmd<Span>, w: Span)
    ensures Spans(AddWord(c, w)) <= Spans(c) + {w}
    decreases c
  {
    if c.Redir? {
      AddWordSpans(c.cmd, w);
    }
  }

  lemma {:induction false} RedirsWords(c: Cmd<Span>, ts: seq<Token>)
    ensures TakesWords(Redirs(c, ts), Spans(c), ts)
    decreases |ts|
  {
    if StartsRedir(ts) && |ts| >= 2 && ts[1].Word? {
      DropWords(ts, 2);
      RedirsWords(Redir(c, ts[1].w, ModeOf(ts[0].c)), ts[2..]);
      assert ts[1].w in WordSpans(ts);
    }
  }

  lemma {:induction false} WordsWords(c: Cmd<Span>, ts: seq<Token>)
    ensures TakesWords(Words(c, ts), Spans(c), ts)
    decreases |ts|
  {
    if !EndsWords(ts) && ts[0].Word? && Argc(c) + 1 < MAXARGS {
      DropWords(ts, 1);
      AddWordSpans(c, ts[0].w);
      assert ts[0].w in WordSpans(ts);
      RedirsWords(AddWord(c, ts[0].w), ts[1..]);
      var r := Redirs(AddWord(c, ts[0].w), ts[1..]);
      if r.Some? {
        WordsWords(r.value.0, r.value.1);
      }
    }
  }

  lemma {:induction false} BacksWords(c: Cmd<Span>, ts: seq<Token>)
    ensures Spans(Backs(c, ts).0) == Spans(c) && WordSpans(Backs(c, ts).1) <= WordSpans(ts)
    decreases |ts|
  {
    if Starts(ts, '&') {
      DropWords(ts, 1);
      BacksWords(Back(c), ts[1..]);
    }
  }

  lemma {:induction false} ExecWords(ts: seq<Token>)
    ensures TakesWords(ExecP(ts), {}, ts)
    decreases |ts|, 1
  {
    if Starts(ts, '(') {
      BlockWords(ts);
    } else {
      RedirsWords(Exec([]), ts);
      var r := Redirs(Exec([]), ts);
      if r.Some? {
        WordsWords(r.value.0, r.value.1);
      }
    }
  }

  lemma {:induction false} BlockWords(ts: seq<Token>)
    requires Starts(ts, '(')
    ensures TakesWords(Block(ts), {}, ts)
    decreases |ts|, 0
  {
    DropWords(ts, 1);
    LineWords(ts[1..]);
    var r := Line(ts[1..]);
    if r.Some? && Starts(r.value.1, ')') {
      DropWords(r.value.1, 1);
      RedirsWords(r.value.0, r.value.1[1..]);
    }
  }

  lemma {:induction false} PipeWords(ts: seq<Token>)
    ensures TakesWords(PipeP(ts), {}, ts)
    decreases |ts|, 2
  {
    ExecWords(ts);
    var r := ExecP(ts);
    if r.Some? && Starts(r.value.1, '|') {
      DropWords(r.value.1, 1);
      PipeWords(r.value.1[1..]);
    }
  }

  lemma {:induction false} LineWords(ts: seq<Token>)
    ensures TakesWords(Line(ts), {}, ts)
    decreases |ts|, 3
  {
    PipeWords(ts);
    var r := PipeP(ts);
    if r.Some? {
      BacksWords(r.value.0, r.value.1);
      var b := Backs(r.value.0, r.value.1);
      if Starts(b.1, ';') {
        DropWords(b.1, 1);
        LineWords(b.1[1..]);
      }
    }
  }

  /** Every word of a parsed line is a maximal run of word characters of it. */
  lemma ParsedSpans(s: string, c: Cmd<Span>, w: Span)
    requires NoNul(s) && Parse(Lex(s, 0)) == Some(c) && w in Spans(c)
    ensures SpanOk(s, w)
  {
    var ts := Lex(s, 0);
    LineWords(ts);
    assert w in WordSpans(ts);
    var k :| 0 <= k < |ts| && ts[k].Word? && ts[k].w == w;
    LexSpans(s, 0, k);
  }

  // ---------- the words as C strings ----------

  /** The characters from i up to the first NUL. */
  function CString(b: seq<char>, i: nat): string
    decreases |b| - i
  {
    if i >= |b| || b[i] == NUL then [] else [b[i]] + CString(b, i + 1)
  }

  lemma {:induction false} CStringIs(b: seq<char>, i: nat, e: nat)
    requires i <= e < |b| && b[e] == NUL && NoNul(b[i..e])
    ensures CString(b, i) == b[i..e]
    decreases e - i
  {
    if i < e {
      assert b[i] == b[i..e][0];
      assert b[i + 1..e] == b[i..e][1..];
      CStringIs(b, i + 1, e);
    }
  }

  /** The buffer once every word of c has been ended. */
  ghost predicate Ended(b: seq<char>, s: string, c: Cmd<Span>) {
    |b| > |s| && forall k: nat {:trigger b[k]} :: k < |s| ==> b[k] == if EndsAt(c, k) then NUL else s[k]
  }

  /** No NUL lands inside a word: each word of the command, read as a C string, is its token. */
  lemma WordsAreTokens(b: seq<char>, s: string, c: Cmd<Span>, w: Span)
    requires NoNul(s) && Parse(Lex(s, 0)) == Some(c) && w in Spans(c)
    requires Ended(b, s, c) && b[|s|] == NUL
    ensures SpanOk(s, w) && CString(b, w.b) == s[w.b..w.e]
  {
    ParsedSpans(s, c, w);
    forall k: nat | w.b <= k < w.e
      ensures b[k] == s[k]
    {
      if EndsAt(c, k) {
        var v :| v in Spans(c) && v.e == k;
        ParsedSpans(s, c, v);
      }
    }
    assert w.e < |s| ==> EndsAt(c, w.e);
    assert b[w.b..w.e] == s[w.b..w.e];
    CStringIs(b, w.b, w.e);
  }

  // ---------- a whole line ----------

  /** None is a panic. Otherwise the command is the line's, and its words can be read in the buffer. */
  method ParseCmd(buf: array<char>, ghost s: string) returns (r: Option<Cmd<Span>>)
    requires Holds(buf, |s|, s)
    modifies buf
    ensures r == Parse(Lex(s, 0))
    ensures r == None ==> buf[..] == old(buf[..])
    ensures r.Some? ==> forall w :: w in Spans(r.value) ==> SpanOk(s, w) && CString(buf[..], w.b) == s[w.b..w.e]
    ensures r.Some? ==> forall k: nat :: k < buf.Length && !EndsAt(r.value, k) ==> buf[k] == old(buf[k])
  {
    var es := StringLength(buf, s);
    var j;
    r, j := ParseLine(buf, es, 0, s, Lex(s, 0));
    if r == None {
      return;
    }
    var found;
    found, j := Peek(buf, es, j, "", s, Line(Lex(s, 0)).value.1);
    if j != es {
      r := None;
      return;
    }
    ghost var c := r.value;
    forall w | w in Spans(c)
      ensures SpanOk(s, w)
    {
      ParsedSpans(s, c, w);
    }
    NulTerminate(buf, r.value);
    assert Ended(buf[..], s, c);
    forall w | w in Spans(c)
      ensures CString(buf[..], w.b) == s[w.b..w.e]
    {
      WordsAreTokens(buf[..], s, c, w);
    }
  }

  /** strlen */
  method StringLength(buf: array<char>, ghost s: string) returns (n: nat)
    requires Holds(buf, |s|, s)
    ensures n == |s|
  {
    forall k | 0 <= k < |s|
      ensures buf[k] != NUL
    {
      assert s[k] != NUL;
    }
    n := 0;
    while buf[n] != NUL
      invariant n <= |s|
      decreases |s| - n
    {
      n := n + 1;
    }
  }
}
