/** grep's loop over a 1024-byte buffer, whatever pieces read returns the input in. */
module Grep {
  import opened Regex

  const BUFSIZE := 1024
  const NUL: char := 0 as char

  // ---------- what grep prints ----------

  /** The first newline from i on, or the length if there is none. */
  function Newline(s: string, i: nat): (k: nat)
    requires i <= |s|
    ensures i <= k <= |s|
    decreases |s| - i
  {
    if i == |s| || s[i] == '\n' then i else Newline(s, i + 1)
  }

  lemma {:induction false} NewlineAt(s: string, i: nat)
    requires i <= |s|
    ensures Newline(s, i) < |s| ==> s[Newline(s, i)] == '\n'
    ensures forall j :: i <= j < Newline(s, i) ==> s[j] != '\n'
    decreases |s| - i
  {
    if i < |s| && s[i] != '\n' {
      NewlineAt(s, i + 1);
    }
  }

  /** The line s[i..k] with its newline, if it matches. */
  ghost function Picked(re: string, s: string, i: nat, k: nat): string
    requires i <= k < |s|
  {
    if Matches(re, s[i..k]) then s[i..k + 1] else ""
  }

  /** The matching lines between i and e that a newline ends, with their newlines. */
  ghost function Matching(re: string, s: string, i: nat, e: nat): string
    requires i <= e <= |s|
    decreases e - i
  {
    var k := Newline(s, i);
    if k >= e then "" else Picked(re, s, i, k) + Matching(re, s, k + 1, e)
  }

  /** Where the first line from i on begins that is too long for the buffer, or the length. */
  function Reach(s: string, i: nat): (r: nat)
    requires i <= |s|
    ensures i <= r <= |s|
    decreases |s| - i
  {
    var k := Newline(s, i);
    if k == |s| then |s| else if k + 1 - i >= BUFSIZE then i else Reach(s, k + 1)
  }

  /** What the loop prints from i on. */
  ghost function Printed(re: string, s: string, i: nat): string
    requires i <= |s|
    decreases |s| - i
  {
    var k := Newline(s, i);
    if k == |s| || k + 1 - i >= BUFSIZE then "" else Picked(re, s, i, k) + Printed(re, s, k + 1)
  }

  lemma NewlineIs(s: string, i: nat, k: nat)
    requires i <= k <= |s| && (k < |s| ==> s[k] == '\n') && forall j :: i <= j < k ==> s[j] != '\n'
    ensures Newline(s, i) == k
  {
    NewlineAt(s, i);
  }

  lemma MatchingLine(re: string, s: string, i: nat, e: nat)
    requires i <= |s| && Newline(s, i) < e <= |s|
    ensures Matching(re, s, i, e) == Picked(re, s, i, Newline(s, i)) + Matching(re, s, Newline(s, i) + 1, e)
  {
  }

  lemma PrintedLine(re: string, s: string, i: nat)
    requires i <= |s| && Newline(s, i) < |s| && Newline(s, i) + 1 - i < BUFSIZE
    ensures Printed(re, s, i) == Picked(re, s, i, Newline(s, i)) + Printed(re, s, Newline(s, i) + 1)
  {
  }

  /** It is the matching lines before the first one that is too long. */
  lemma {:induction false} PrintedUpTo(re: string, s: string, i: nat)
    requires i <= |s|
    ensures Printed(re, s, i) == Matching(re, s, i, Reach(s, i))
    decreases |s| - i
  {
    var k := Newline(s, i);
    if k < |s| && k + 1 - i < BUFSIZE {
      var r := Reach(s, k + 1);
      assert Reach(s, i) == r;
      PrintedUpTo(re, s, k + 1);
      PrintedLine(re, s, i);
      MatchingLine(re, s, i, r);
    } else {
      assert Printed(re, s, i) == "";
    }
  }

  lemma {:induction false} MatchingSplit(re: string, s: string, i: nat, e: nat)
    requires i <= e <= |s| && (e == |s| || e == i || s[e - 1] == '\n')
    ensures Matching(re, s, i, |s|) == Matching(re, s, i, e) + Matching(re, s, e, |s|)
    decreases e - i
  {
    var k := Newline(s, i);
    NewlineAt(s, i);
    if i < e && k < e {
      MatchingSplit(re, s, k + 1, e);
      MatchingLine(re, s, i, e);
      MatchingLine(re, s, i, |s|);
      Regroup(Picked(re, s, i, k), Matching(re, s, k + 1, e), Matching(re, s, e, |s|));
    }
  }

  lemma Regroup(a: string, b: string, c: string)
    ensures a + (b + c) == a + b + c
  {
  }

  lemma {:induction false} ReachStarts(s: string, i: nat)
    requires i <= |s|
    ensures Reach(s, i) == i || Reach(s, i) == |s| || s[Reach(s, i) - 1] == '\n'
    decreases |s| - i
  {
    var k := Newline(s, i);
    NewlineAt(s, i);
    if k < |s| && k + 1 - i < BUFSIZE {
      ReachStarts(s, k + 1);
    }
  }

  // ---------- said of the lines ----------

  /** A line is s[i..k], with its newline at k. */
  ghost predicate IsLine(s: string, i: nat, k: nat) {
    && i <= k < |s| && s[k] == '\n' && (i == 0 || s[i - 1] == '\n')
    && forall j :: i <= j < k ==> s[j] != '\n'
  }

  /** Every line that a newline ends is at most 1023 bytes long with it. */
  ghost predicate LinesFit(s: string) {
    Reach(s, 0) == |s|
  }

  lemma LaterLine(s: string, n: nat, i: nat, k: nat)
    requires n <= |s| && n <= i && IsLine(s, i, k) && (n == 0 || s[n - 1] == '\n')
    ensures Newline(s, n) < |s| && (i == n ==> k == Newline(s, n)) && (i > n ==> i > Newline(s, n))
  {
    NewlineAt(s, n);
  }

  /** LinesFit, said of the lines. */
  lemma LinesFitMeans(s: string)
    ensures LinesFit(s) <==> forall i: nat, k: nat :: IsLine(s, i, k) ==> k + 1 - i < BUFSIZE
  {
    FitFrom(s, 0);
  }

  lemma {:induction false} FitFrom(s: string, n: nat)
    requires n <= |s| && (n == 0 || s[n - 1] == '\n')
    ensures Reach(s, n) == |s| <==> forall i: nat, k: nat :: n <= i && IsLine(s, i, k) ==> k + 1 - i < BUFSIZE
    decreases |s| - n
  {
    var m := Newline(s, n);
    NewlineAt(s, n);
    forall i: nat, k: nat | n <= i && IsLine(s, i, k)
      ensures m < |s| && (i == n ==> k == m) && (i > n ==> i > m)
    {
      LaterLine(s, n, i, k);
    }
    if m < |s| {
      assert IsLine(s, n, m);
      FitFrom(s, m + 1);
    }
  }

  /** Some line that begins at n or later matches. */
  ghost predicate MatchFrom(re: string, s: string, n: nat) {
    exists i: nat, k: nat :: n <= i && IsLine(s, i, k) && Matches(re, s[i..k])
  }

  lemma FirstOrLater(re: string, s: string, n: nat)
    requires n <= |s| && (n == 0 || s[n - 1] == '\n')
    ensures Newline(s, n) == |s| ==> !MatchFrom(re, s, n)
    ensures Newline(s, n) < |s| ==>
              (MatchFrom(re, s, n) <==> Matches(re, s[n..Newline(s, n)]) || MatchFrom(re, s, Newline(s, n) + 1))
  {
    var m := Newline(s, n);
    NewlineAt(s, n);
    assert m < |s| ==> IsLine(s, n, m);
    if MatchFrom(re, s, n) {
      var i: nat, k: nat :| n <= i && IsLine(s, i, k) && Matches(re, s[i..k]);
      LaterLine(s, n, i, k);
    }
  }

  /** Nothing matches exactly if there is nothing to print. */
  lemma {:induction false} MatchingNone(re: string, s: string, n: nat)
    requires n <= |s| && (n == 0 || s[n - 1] == '\n')
    ensures Matching(re, s, n, |s|) == "" <==> !MatchFrom(re, s, n)
    decreases |s| - n
  {
    FirstOrLater(re, s, n);
    var k := Newline(s, n);
    NewlineAt(s, n);
    if k < |s| {
      MatchingNone(re, s, k + 1);
      assert |Matching(re, s, n, |s|)| == |Picked(re, s, n, k)| + |Matching(re, s, k + 1, |s|)|;
    }
  }

  /** grep prints all matching lines exactly if none begins where the first line that is too long begins, or later. */
  lemma AllLines(re: string, s: string)
    ensures Printed(re, s, 0) == Matching(re, s, 0, |s|) <==> !MatchFrom(re, s, Reach(s, 0))
    ensures LinesFit(s) ==> Printed(re, s, 0) == Matching(re, s, 0, |s|)
  {
    var r := Reach(s, 0);
    PrintedUpTo(re, s, 0);
    ReachStarts(s, 0);
    MatchingSplit(re, s, 0, r);
    if r < |s| {
      MatchingNone(re, s, r);
    }
    SameIfNone(Matching(re, s, 0, r), Matching(re, s, r, |s|));
  }

  lemma SameIfNone(a: string, b: string)
    ensures a == a + b <==> b == ""
  {
    assert |a + b| == |a| + |b|;
  }

  /** A matching line behind one of 1024 bytes is not printed. */
  lemma DroppedLine() returns (s: string)
    ensures NoNul(s) && IsLine(s, 1024, 1025) && Matches("y", s[1024..1025]) && Printed("y", s, 0) == ""
  {
    s := seq(1023, _ => 'x') + "\ny\n";
    NewlineIs(s, 0, 1023);
    assert s[1024..1025] == "y";
    assert Divides([0, 1], Items("y"), "y", 0);
    assert Here(Items("y"), "y", 0);
  }

  // ---------- the loop ----------

  predicate NoNul(s: string) {
    forall k :: 0 <= k < |s| ==> s[k] != NUL
  }

  /** From p up to m the buffer holds the same characters as s does from at + p on. */
  ghost predicate Agrees(buf: array<char>, s: string, at: nat, p: nat, m: nat)
    reads buf
  {
    at + m <= |s| && m <= buf.Length && forall k: nat {:trigger buf[k]} :: p <= k < m ==> buf[k] == s[at + k]
  }

  /** Everything before position a has been dealt with by printing out. */
  ghost predicate Told(re: string, s: string, a: nat, out: string) {
    a <= |s| && Printed(re, s, 0) == out + Printed(re, s, a)
  }

  /** read: some of what is left of the input goes to the buffer from m on.
      It is nothing only if nothing is left or nothing is asked for. */
  method Read(input: string, buf: array<char>, ghost at: nat, m: nat, pos: nat, max: nat) returns (n: nat)
    requires at + m == pos && m + max <= buf.Length && Agrees(buf, input, at, 0, m)
    modifies buf
    ensures n <= max && pos + n <= |input| && (n == 0 <==> pos == |input| || max == 0)
    ensures Agrees(buf, input, at, 0, m + n)
  {
    var most := if max < |input| - pos then max else |input| - pos;
    if most == 0 {
      return 0;
    }
    n :| 0 < n <= most;
    forall k | m <= k < m + n {
      buf[k] := input[pos + (k - m)];
    }
  }

  /** strchr(p, '\n') on a string that ends at m: m stands for the null pointer. */
  method FindNewline(buf: array<char>, p: nat, m: nat, ghost s: string, ghost at: nat) returns (q: nat)
    requires p <= m < buf.Length && buf[m] == NUL && NoNul(s) && Agrees(buf, s, at, p, m)
    ensures p <= q <= m && (q < m ==> s[at + q] == '\n') && forall k: nat :: at + p <= k < at + q ==> s[k] != '\n'
  {
    q := p;
    while buf[q] != NUL && buf[q] != '\n'
      invariant p <= q <= m && forall k: nat :: at + p <= k < at + q ==> s[k] != '\n'
      decreases m - q
    {
      q := q + 1;
    }
  }

  /** The line from p to q, printed if it matches. */
  method OneLine(re: string, buf: array<char>, p: nat, q: nat, m: nat, ghost s: string, ghost at: nat)
    returns (out: string)
    requires p <= q < m && Agrees(buf, s, at, p, m) && s[at + q] == '\n'
    modifies buf
    ensures Agrees(buf, s, at, q + 1, m) && forall k: nat :: m <= k < buf.Length ==> buf[k] == old(buf[k])
    ensures out == Picked(re, s, at + p, at + q)
  {
    ghost var text, line := s[at + p..at + q], s[at + p..at + q + 1];
    buf[q] := NUL;
    assert buf[p..q] == text;
    var matched := Match(re, buf[p..q]);
    out := "";
    if matched {
      buf[q] := '\n';
      out := buf[p..q + 1];
      assert out == line;
    }
    assert out == if Matches(re, text) then line else "";
  }

  lemma Onwards(re: string, s: string, a: nat, b: nat, done: string)
    requires Told(re, s, a, done) && a <= b < |s| && b + 1 - a < BUFSIZE && s[b] == '\n'
    requires forall k :: a <= k < b ==> s[k] != '\n'
    ensures Told(re, s, b + 1, done + Picked(re, s, a, b))
  {
    NewlineIs(s, a, b);
    Regroup(done, Picked(re, s, a, b), Printed(re, s, b + 1));
  }

  /** The lines before p have been dealt with, and the next newline in the buffer is at q; m stands for none. */
  ghost predicate Scanned(buf: array<char>, s: string, at: nat, m: nat, p: nat, q: nat)
    reads buf
  {
    && p <= q <= m < buf.Length == BUFSIZE && buf[m] == NUL && Agrees(buf, s, at, p, m)
    && (q < m ==> s[at + q] == '\n') && (forall k: nat :: at + p <= k < at + q ==> s[k] != '\n')
  }

  /** The body of the inner loop; out is what has been printed so far. */
  method ScanLine(re: string, buf: array<char>, m: nat, p: nat, q: nat, out: string, ghost s: string, ghost at: nat,
                  ghost a: nat)
    returns (after: nat, next: nat, longer: string, ghost b: nat)
    requires NoNul(s) && q < m && Scanned(buf, s, at, m, p, q) && a == at + p && Told(re, s, a, out)
    modifies buf
    ensures after == q + 1 && Scanned(buf, s, at, m, after, next) && b == at + after && Told(re, s, b, longer)
  {
    after, b := q + 1, at + q + 1;
    Onwards(re, s, a, at + q, out);
    var line := OneLine(re, buf, p, q, m, s, at);
    longer := out + line;
    next := FindNewline(buf, after, m, s, at);
  }

  /** The inner loop, over the m bytes in the buffer, which are those of s from at on. */
  method ScanLines(re: string, buf: array<char>, m: nat, out: string, ghost s: string, ghost at: nat)
    returns (p: nat, longer: string)
    requires buf.Length == BUFSIZE && m < BUFSIZE && buf[m] == NUL && NoNul(s) && Agrees(buf, s, at, 0, m)
    requires Told(re, s, at, out)
    modifies buf
    ensures p <= m && Agrees(buf, s, at, p, m) && forall k: nat :: at + p <= k < at + m ==> s[k] != '\n'
    ensures Told(re, s, at + p, longer)
  {
    p, longer := 0, out;
    ghost var a := at;
    var q := FindNewline(buf, p, m, s, at);
    while q < m
      invariant Scanned(buf, s, at, m, p, q) && a == at + p && Told(re, s, a, longer)
      decreases m - p
    {
      p, q, longer, a := ScanLine(re, buf, m, p, q, longer, s, at, a);
    }
  }

  /** memmove(buf, buf + p, n) */
  method MoveDown(buf: array<char>, p: nat, n: nat, ghost s: string, ghost at: nat)
    requires p + n <= buf.Length && Agrees(buf, s, at, p, p + n)
    modifies buf
    ensures forall k: nat {:trigger buf[k]} :: k < n ==> buf[k] == old(buf[p + k])
    ensures Agrees(buf, s, at + p, 0, n)
  {
    forall k | 0 <= k < n {
      buf[k] := buf[p + k];
    }
  }

  /** What holds before each read: the m bytes left over begin at position at and hold no newline. */
  ghost predicate Held(re: string, s: string, buf: array<char>, at: nat, m: nat, out: string)
    reads buf
  {
    && Agrees(buf, s, at, 0, m) && (forall k: nat :: at <= k < at + m ==> s[k] != '\n') && Told(re, s, at, out)
  }

  /** The body of the outer loop, with m bytes in the buffer, up to the next read. */
  method Round(re: string, buf: array<char>, m: nat, out: string, ghost s: string, ghost at: nat)
    returns (left: nat, longer: string, ghost next: nat)
    requires buf.Length == BUFSIZE && m < BUFSIZE && NoNul(s) && Agrees(buf, s, at, 0, m) && Told(re, s, at, out)
    modifies buf
    ensures left <= m && next + left == at + m && Held(re, s, buf, next, left, longer)
  {
    buf[m] := NUL;
    var p;
    p, longer := ScanLines(re, buf, m, out, s, at);
    left, next := m - p, at + p;
    MoveDown(buf, p, left, s, at);
  }

  /** grep prints the matching lines of its input up to the first line that does not fit its buffer,
      in whatever pieces the input arrives. */
  method Grep(re: string, input: string, buf: array<char>) returns (out: string)
    requires buf.Length == BUFSIZE && NoNul(input)
    modifies buf
    ensures out == Printed(re, input, 0)
  {
    var m: nat, pos: nat := 0, 0;
    out := "";
    ghost var at: nat := 0;
    assert Told(re, input, 0, "");
    var n := Read(input, buf, at, m, pos, BUFSIZE - m - 1);
    while n > 0
      invariant at + m == pos && m + n < BUFSIZE && pos + n <= |input|
      invariant n == 0 <==> pos == |input| || m == BUFSIZE - 1
      invariant Agrees(buf, input, at, 0, m + n) && Told(re, input, at, out)
      invariant forall k: nat :: at <= k < pos ==> input[k] != '\n'
      decreases |input| - pos
    {
      pos := pos + n;
      m, out, at := Round(re, buf, m + n, out, input, at);
      n := Read(input, buf, at, m, pos, BUFSIZE - m - 1);
    }
    Finished(re, input, at, m, out);
  }

  /** Nothing is left to print at the end of the input, or before a line that fills the buffer. */
  lemma Finished(re: string, s: string, at: nat, m: nat, out: string)
    requires Told(re, s, at, out) && at + m <= |s| && (at + m == |s| || m == BUFSIZE - 1)
    requires forall k: nat :: at <= k < at + m ==> s[k] != '\n'
    ensures out == Printed(re, s, 0)
  {
    NewlineAt(s, at);
    assert Printed(re, s, at) == "";
  }
}
