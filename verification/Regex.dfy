/** What a grep pattern means, and the backtracking matcher that decides it. */
module Regex {

  // ---------- meaning ----------

  /** A character, any number of a character, or the end of the text. */
  datatype Item = One(c: char) | Star(c: char) | End

  /** A star after a character comes first, a '$' counts only as the last character. */
  function Items(re: string): (p: seq<Item>)
    decreases |re|
  {
    if re == "" then []
    else if |re| > 1 && re[1] == '*' then [Star(re[0])] + Items(re[2..])
    else if re == "$" then [End]
    else [One(re[0])] + Items(re[1..])
  }

  /** How a pattern is written. */
  function Written(p: seq<Item>): string {
    if p == [] then ""
    else
      (match p[0]
       case One(c) => [c]
       case Star(c) => [c, '*']
       case End => "$") + Written(p[1..])
  }

  /** Items that can be written: a star makes the character before it repeat, a last '$' is the end of the text, and
      nothing follows that. */
  predicate Writable(p: seq<Item>) {
    p == [] ||
    (&& (p[0].One? ==> !(Written(p[1..]) != "" && Written(p[1..])[0] == '*') && !(p[0].c == '$' && p[1..] == []))
     && (p[0].End? ==> p[1..] == [])
     && Writable(p[1..]))
  }

  /** Every text is read as items, which are written as that text. */
  lemma {:induction false} ReadThenWritten(re: string)
    ensures Written(Items(re)) == re && Writable(Items(re))
    decreases |re|
  {
    if re == "" {
    } else if |re| > 1 && re[1] == '*' {
      ReadThenWritten(re[2..]);
      assert ([Star(re[0])] + Items(re[2..]))[1..] == Items(re[2..]);
      assert re == [re[0], '*'] + re[2..];
    } else if re == "$" {
      assert [End][1..] == [];
    } else {
      ReadThenWritten(re[1..]);
      assert ([One(re[0])] + Items(re[1..]))[1..] == Items(re[1..]);
      assert re == [re[0]] + re[1..];
    }
  }

  /** And items that are written are read as what they were. */
  lemma {:induction false} WrittenThenRead(p: seq<Item>)
    requires Writable(p)
    ensures Items(Written(p)) == p
    decreases |p|
  {
    if p != [] {
      WrittenThenRead(p[1..]);
      var re := Written(p);
      match p[0]
      case One(c) => assert re[0] == c && re[1..] == Written(p[1..]);
        assert Written(p[1..]) == "" ==> p[1..] == [];
      case Star(c) => assert re[0] == c && re[1] == '*' && re[2..] == Written(p[1..]);
      case End => assert re == "$";
    }
  }

  predicate Accepts(c: char, t: char) {
    c == '.' || c == t
  }

  /** The item matches the characters of the text from a up to b. */
  predicate Fits(it: Item, text: string, a: nat, b: nat) {
    a <= b <= |text|
    && match it
       case One(c) => b == a + 1 && Accepts(c, text[a])
       case Star(c) => forall k :: a <= k < b ==> Accepts(c, text[k])
       case End => a == b == |text|
  }

  /** The cuts divide a stretch of the text into one piece for each item. */
  predicate Divides(cuts: seq<nat>, p: seq<Item>, text: string, a: nat) {
    && |cuts| == |p| + 1 && cuts[0] == a <= |text|
    && forall k {:trigger p[k]} :: 0 <= k < |p| ==> Fits(p[k], text, cuts[k], cuts[k + 1])
  }

  /** Some stretch of the text that begins at a matches. */
  ghost predicate Here(p: seq<Item>, text: string, a: nat) {
    exists cuts :: Divides(cuts, p, text, a)
  }

  /** Some stretch of the text matches: one at the very beginning if the pattern starts with '^'. */
  ghost predicate Matches(re: string, text: string) {
    if re != "" && re[0] == '^' then Here(Items(re[1..]), text, 0)
    else exists a: nat :: a <= |text| && Here(Items(re), text, a)
  }

  lemma HereNone(text: string, a: nat)
    requires a <= |text|
    ensures Here([], text, a)
  {
    assert Divides([a], [], text, a);
  }

  lemma HereMore(it: Item, p: seq<Item>, text: string, a: nat, b: nat)
    requires Fits(it, text, a, b) && Here(p, text, b)
    ensures Here([it] + p, text, a)
  {
    var cuts :| Divides(cuts, p, text, b);
    var all := [a] + cuts;
    forall k | 0 <= k < |p| + 1
      ensures Fits(([it] + p)[k], text, all[k], all[k + 1])
    {
      if k > 0 {
        assert Fits(p[k - 1], text, cuts[k - 1], cuts[k]);
      }
    }
    assert Divides(all, [it] + p, text, a);
  }

  lemma HereLess(it: Item, p: seq<Item>, text: string, a: nat) returns (b: nat)
    requires Here([it] + p, text, a)
    ensures Fits(it, text, a, b) && Here(p, text, b)
  {
    var cuts :| Divides(cuts, [it] + p, text, a);
    b := cuts[1];
    assert Fits(([it] + p)[0], text, cuts[0], cuts[1]);
    var rest := cuts[1..];
    forall k | 0 <= k < |p|
      ensures Fits(p[k], text, rest[k], rest[k + 1])
    {
      assert Fits(([it] + p)[k + 1], text, cuts[k + 1], cuts[k + 2]);
    }
    assert Divides(rest, p, text, b);
  }

  // ---------- the matcher ----------

  /** i is the text pointer; the text ends where the pointed-to string has its NUL. */
  method MatchHere(re: string, text: string, i: nat) returns (r: bool)
    requires i <= |text|
    ensures r <==> Here(Items(re), text, i)
    decreases |re|, 0
  {
    if re == "" {
      HereNone(text, i);
      return true;
    }
    if |re| > 1 && re[1] == '*' {
      r := MatchStar(re[0], re[2..], text, i);
      return;
    }
    if re == "$" {
      EndHere(text, i);
      return i == |text|;
    }
    OneHere(re[0], Items(re[1..]), text, i);
    if i < |text| && (re[0] == '.' || re[0] == text[i]) {
      r := MatchHere(re[1..], text, i + 1);
      return;
    }
    r := false;
  }

  lemma EndHere(text: string, i: nat)
    requires i <= |text|
    ensures Here([End], text, i) <==> i == |text|
  {
    assert [End] + [] == [End];
    if i == |text| {
      HereNone(text, i);
      HereMore(End, [], text, i, i);
    } else if Here([End], text, i) {
      var b := HereLess(End, [], text, i);
    }
  }

  lemma OneHere(c: char, p: seq<Item>, text: string, i: nat)
    requires i <= |text|
    ensures Here([One(c)] + p, text, i) <==> i < |text| && Accepts(c, text[i]) && Here(p, text, i + 1)
  {
    if Here([One(c)] + p, text, i) {
      var b := HereLess(One(c), p, text, i);
    } else if i < |text| && Accepts(c, text[i]) && Here(p, text, i + 1) {
      HereMore(One(c), p, text, i, i + 1);
    }
  }

  method MatchStar(c: char, re: string, text: string, i: nat) returns (r: bool)
    requires i <= |text|
    ensures r <==> Here([Star(c)] + Items(re), text, i)
    decreases |re|, 1
  {
    ghost var p := Items(re);
    var j := i;
    while true
      invariant i <= j <= |text|
      invariant forall k :: i <= k < j ==> Accepts(c, text[k]) && !Here(p, text, k)
      decreases |text| - j
    {
      r := MatchHere(re, text, j);
      if r {
        HereMore(Star(c), p, text, i, j);
        return;
      }
      if j == |text| || !(text[j] == c || c == '.') {
        StarFails(c, p, text, i, j);
        return;
      }
      j := j + 1;
    }
  }

  lemma StarFails(c: char, p: seq<Item>, text: string, i: nat, j: nat)
    requires i <= j <= |text| && (j < |text| ==> !Accepts(c, text[j]))
    requires forall k :: i <= k <= j ==> !Here(p, text, k)
    ensures !Here([Star(c)] + p, text, i)
  {
    if Here([Star(c)] + p, text, i) {
      var b := HereLess(Star(c), p, text, i);
      assert false;
    }
  }

  /** match returns 1 exactly when the pattern's meaning is satisfied. */
  method Match(re: string, text: string) returns (r: bool)
    ensures r <==> Matches(re, text)
  {
    if re != "" && re[0] == '^' {
      r := MatchHere(re[1..], text, 0);
      return;
    }
    var i := 0;
    while true
      invariant i <= |text|
      invariant forall a: nat :: a < i ==> !Here(Items(re), text, a)
      decreases |text| - i
    {
      r := MatchHere(re, text, i);
      if r || i == |text| {
        return;
      }
      i := i + 1;
    }
  }
}
