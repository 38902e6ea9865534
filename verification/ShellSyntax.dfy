/** The shell's tokens and its grammar: the reference for the parser in Shell. */
module ShellSyntax {
  import opened Basics

  const MAXARGS := 10
  const NUL: char := 0 as char

  predicate IsSpace(c: char) {
    c == ' ' || c == '\t' || c == '\r' || c == '\n' || c == 11 as char
  }

  predicate IsSymbol(c: char) {
    c == '<' || c == '|' || c == '>' || c == '&' || c == ';' || c == '(' || c == ')'
  }

  predicate IsWordChar(c: char) {
    !IsSpace(c) && !IsSymbol(c) && c != NUL
  }

  /** The characters from b up to e. */
  datatype Span = Span(b: nat, e: nat)

  /** Sym('+') stands for ">>". */
  datatype Lexeme<W> = Word(w: W) | Sym(c: char)

  /** A token of a line says where its word stands. */
  type Token = Lexeme<Span>

  datatype Mode = Read | Write | Append

  /** Span trees are what the parser builds, text trees what they mean. */
  datatype Cmd<W> =
    | Exec(argv: seq<W>)
    | Redir(cmd: Cmd<W>, file: W, mode: Mode)
    | Pipe(left: Cmd<W>, right: Cmd<W>)
    | List(left: Cmd<W>, right: Cmd<W>)
    | Back(cmd: Cmd<W>)

  // ---------- tokens ----------

  function SkipSpace(s: string, i: nat): (j: nat)
    requires i <= |s|
    ensures i <= j <= |s| && (j < |s| ==> !IsSpace(s[j]))
    decreases |s| - i
  {
    if i < |s| && IsSpace(s[i]) then SkipSpace(s, i + 1) else i
  }

  function SkipWord(s: string, i: nat): (j: nat)
    requires i <= |s|
    ensures i <= j <= |s| && (j < |s| ==> !IsWordChar(s[j]))
    decreases |s| - i
  {
    if i < |s| && IsWordChar(s[i]) then SkipWord(s, i + 1) else i
  }

  predicate NoNul(s: string) {
    forall k :: 0 <= k < |s| ==> s[k] != NUL
  }

  /** The end of the token that begins at i. */
  function TokenEnd(s: string, i: nat): (j: nat)
    requires i < |s| && !IsSpace(s[i]) && s[i] != NUL
    ensures i < j <= |s|
  {
    if s[i] == '>' && i + 1 < |s| && s[i + 1] == '>' then i + 2
    else if IsSymbol(s[i]) then i + 1
    else SkipWord(s, i + 1)
  }

  function TokenAt(s: string, i: nat): Token
    requires i < |s| && !IsSpace(s[i]) && s[i] != NUL
  {
    if s[i] == '>' && i + 1 < |s| && s[i + 1] == '>' then Sym('+')
    else if IsSymbol(s[i]) then Sym(s[i])
    else Word(Span(i, TokenEnd(s, i)))
  }

  /** The tokens from position i on. */
  function Lex(s: string, i: nat): seq<Token>
    requires i <= |s| && NoNul(s)
    decreases |s| - i
  {
    var j := SkipSpace(s, i);
    if j == |s| then [] else [TokenAt(s, j)] + Lex(s, TokenEnd(s, j))
  }

  /** A word token is a maximal run of word characters. */
  predicate SpanOk(s: string, w: Span) {
    && w.b < w.e <= |s| && (w.e < |s| ==> !IsWordChar(s[w.e]))
    && forall k :: w.b <= k < w.e ==> IsWordChar(s[k])
  }

  lemma {:induction false} SkipWordRun(s: string, i: nat, k: nat)
    requires i <= |s| && i <= k < SkipWord(s, i)
    ensures IsWordChar(s[k])
    decreases k - i
  {
    if i < k {
      SkipWordRun(s, i + 1, k);
    }
  }

  lemma {:induction false} LexSpans(s: string, i: nat, k: nat)
    requires i <= |s| && NoNul(s) && k < |Lex(s, i)| && Lex(s, i)[k].Word?
    ensures SpanOk(s, Lex(s, i)[k].w)
    decreases |s| - i
  {
    var j := SkipSpace(s, i);
    if k > 0 {
      LexSpans(s, TokenEnd(s, j), k - 1);
    } else {
      forall n | j <= n < TokenEnd(s, j)
        ensures IsWordChar(s[n])
      {
        if n > j {
          SkipWordRun(s, j + 1, n);
        }
      }
    }
  }

  // ---------- the grammar ----------

  predicate Starts(ts: seq<Token>, c: char) {
    ts != [] && ts[0] == Sym(c)
  }

  predicate StartsRedir(ts: seq<Token>) {
    Starts(ts, '<') || Starts(ts, '>') || Starts(ts, '+')
  }

  predicate EndsWords(ts: seq<Token>) {
    ts == [] || Starts(ts, '|') || Starts(ts, ')') || Starts(ts, '&') || Starts(ts, ';')
  }

  function OpToken<W>(m: Mode): Lexeme<W> {
    match m
    case Read => Sym('<')
    case Write => Sym('>')
    case Append => Sym('+')
  }

  function ModeOf(c: char): Mode {
    if c == '<' then Read else if c == '>' then Write else Append
  }

  type Parsed = Option<(Cmd<Span>, seq<Token>)>

  /** What is left is no longer than what there was. */
  predicate Shrinks(r: Parsed, ts: seq<Token>) {
    r.Some? ==> |r.value.1| <= |ts|
  }

  function Redirs(c: Cmd<Span>, ts: seq<Token>): (r: Parsed)
    ensures Shrinks(r, ts)
    decreases |ts|
  {
    if !StartsRedir(ts) then Some((c, ts))
    else if |ts| < 2 || !ts[1].Word? then None
    else Redirs(Redir(c, ts[1].w, ModeOf(ts[0].c)), ts[2..])
  }

  /** The command with w as a further argument, under any redirections. */
  function AddWord(c: Cmd<Span>, w: Span): Cmd<Span> {
    match c
    case Exec(argv) => Exec(argv + [w])
    case Redir(d, file, mode) => Redir(AddWord(d, w), file, mode)
    case _ => c
  }

  function Argc(c: Cmd<Span>): nat {
    match c
    case Exec(argv) => |argv|
    case Redir(d, _, _) => Argc(d)
    case _ => 0
  }

  /** The loop of parseexec. */
  function Words(c: Cmd<Span>, ts: seq<Token>): (r: Parsed)
    ensures Shrinks(r, ts)
    decreases |ts|
  {
    if EndsWords(ts) then Some((c, ts))
    else if !ts[0].Word? then None
    else if Argc(c) + 1 >= MAXARGS then None
    else
      var r := Redirs(AddWord(c, ts[0].w), ts[1..]);
      if r.None? then None else Words(r.value.0, r.value.1)
  }

  function ExecP(ts: seq<Token>): (r: Parsed)
    ensures Shrinks(r, ts)
    decreases |ts|, 1
  {
    if Starts(ts, '(') then Block(ts)
    else
      var r := Redirs(Exec([]), ts);
      if r.None? then None else Words(r.value.0, r.value.1)
  }

  function Block(ts: seq<Token>): (r: Parsed)
    requires Starts(ts, '(')
    ensures Shrinks(r, ts)
    decreases |ts|, 0
  {
    var r := Line(ts[1..]);
    if r.None? || !Starts(r.value.1, ')') then None else Redirs(r.value.0, r.value.1[1..])
  }

  function PipeP(ts: seq<Token>): (r: Parsed)
    ensures Shrinks(r, ts)
    decreases |ts|, 2
  {
    var r := ExecP(ts);
    if r.None? || !Starts(r.value.1, '|') then r
    else
      var q := PipeP(r.value.1[1..]);
      if q.None? then None else Some((Pipe(r.value.0, q.value.0), q.value.1))
  }

  /** The loop of parseline over '&'. */
  function Backs(c: Cmd<Span>, ts: seq<Token>): (r: (Cmd<Span>, seq<Token>))
    ensures |r.1| <= |ts|
    decreases |ts|
  {
    if Starts(ts, '&') then Backs(Back(c), ts[1..]) else (c, ts)
  }

  function Line(ts: seq<Token>): (r: Parsed)
    ensures Shrinks(r, ts)
    decreases |ts|, 3
  {
    var r := PipeP(ts);
    if r.None? then None
    else
      var b := Backs(r.value.0, r.value.1);
      if !Starts(b.1, ';') then Some(b)
      else
        var q := Line(b.1[1..]);
        if q.None? then None else Some((List(b.0, q.value.0), q.value.1))
  }

  /** A whole line must be used up. */
  function Parse(ts: seq<Token>): Option<Cmd<Span>> {
    var r := Line(ts);
    if r.None? || r.value.1 != [] then None else Some(r.value.0)
  }
}
