/** What path names mean: the entries that a lookup follows, and what create, link and unlink change for it. */
module Paths {
  import opened Basics
  import opened Params
  import opened Directories
  import opened FileTree

  // ---------- one name ----------

  predicate IsEntry(t: Tree, d: nat, k: nat, name: Name, i: nat) {
    d in t && k < |t[d].slots| && t[d].slots[k] == Entry(i, name)
  }

  /** Directory d has an entry of that name for inode i. */
  ghost predicate Names(t: Tree, d: nat, name: Name, i: nat) {
    d in t && t[d].kind.Dir? && i != 0 && exists k: nat :: IsEntry(t, d, k, name, i)
  }

  /** Looking up one name in a directory gives the inode of its entry, and nothing when there is none. */
  lemma OneName(t: Tree, home: map<nat, (nat, nat)>, d: nat, name: Name, i: nat)
    requires Inv(t, home) && Linked(t, d)
    ensures Walk(t, d, [name]) == Some(i) <==> Names(t, d, name, i)
  {
    var s, k := t[d].slots, Find(t[d].slots, name, 0);
    assert Walk(t, d, [name]) == if k == |s| then None else Walk(t, s[k].inum, []);
    if k < |s| {
      assert IsEntry(t, d, k, name, s[k].inum);
    }
    forall j: nat | IsEntry(t, d, j, name, i) && i != 0
      ensures k == j
    {
      FindIsTheOne(t, home, d, name, j);
    }
  }

  /** An entry of a linked directory names an inode with links: a directory among them is linked again. */
  lemma NamedIsLinked(t: Tree, home: map<nat, (nat, nat)>, d: nat, name: Name, i: nat)
    requires Inv(t, home) && Linked(t, d) && Names(t, d, name, i)
    ensures i in t && t[i].kind != NoKind && t[i].nlink > 0
  {
    var k: nat :| IsEntry(t, d, k, name, i);
    assert DirOk(t, d) && NodeOk(t, i) && NodeOk(t, d);
    if t[i].nlink == 0 {
      NoLinkNoName(t, home, i, d, k);
    }
  }

  lemma DotAndDotDot(t: Tree, home: map<nat, (nat, nat)>, d: nat)
    requires Inv(t, home) && Linked(t, d)
    ensures Walk(t, d, [DOT]) == Some(d)
    ensures if d == ROOTINO then Walk(t, d, [DOTDOT]) == Some(d)
            else d in home && Walk(t, d, [DOTDOT]) == Some(home[d].0)
  {
    assert DirOk(t, d) && HomeOk(t, home, d);
    assert IsEntry(t, d, 0, DOT, d) && IsEntry(t, d, 1, DOTDOT, t[d].slots[1].inum);
    OneName(t, home, d, DOT, d);
    OneName(t, home, d, DOTDOT, t[d].slots[1].inum);
  }

  /** Going into a directory and to ".." comes back to where one was. */
  lemma DownAndUp(t: Tree, home: map<nat, (nat, nat)>, d: nat, name: Name, e: nat)
    requires Inv(t, home) && Linked(t, d) && Walk(t, d, [name]) == Some(e) && Linked(t, e)
    requires name != DOT && name != DOTDOT
    ensures Walk(t, d, [name, DOTDOT]) == Some(d)
  {
    OneName(t, home, d, name, e);
    var k: nat :| IsEntry(t, d, k, name, e);
    assert DirOk(t, d) && AtHome(t, home, d, k);
    DotAndDotDot(t, home, e);
    WalkJoin(t, d, [name], [DOTDOT]);
    assert [name] + [DOTDOT] == [name, DOTDOT];
  }

  // ---------- several names ----------

  /** A walk of one path after another. */
  lemma {:induction false} WalkJoin(t: Tree, i: nat, a: seq<Name>, b: seq<Name>)
    ensures Walk(t, i, a + b) == if Walk(t, i, a) == None then None else Walk(t, Walk(t, i, a).value, b)
    decreases |a|
  {
    if a == [] {
      assert a + b == b;
    } else if i in t && t[i].kind.Dir? {
      var k := Find(t[i].slots, a[0], 0);
      assert (a + b)[0] == a[0] && (a + b)[1..] == a[1..] + b;
      if k < |t[i].slots| {
        WalkJoin(t, t[i].slots[k].inum, a[1..], b);
      }
    }
  }

  /** via are the inodes on the way: each names the next one. */
  ghost predicate Chain(t: Tree, via: seq<nat>, names: seq<Name>) {
    |via| == |names| + 1 && forall x {:trigger names[x]} :: 0 <= x < |names| ==> Names(t, via[x], names[x], via[x + 1])
  }

  /** A walk is a chain of entries, and every chain of entries is what the walk finds. */
  lemma {:induction false} WalkFollows(t: Tree, home: map<nat, (nat, nat)>, d: nat, names: seq<Name>)
    returns (via: seq<nat>)
    requires Inv(t, home) && d in t && t[d].nlink > 0
    ensures Walk(t, d, names).Some? ==> Chain(t, via, names) && via[0] == d && via[|names|] == Walk(t, d, names).value
    ensures Walk(t, d, names).Some? ==> via[|names|] in t && t[via[|names|]].nlink > 0
    decreases |names|
  {
    via := [d];
    if names != [] && Walk(t, d, names).Some? {
      var k := Find(t[d].slots, names[0], 0);
      var next := t[d].slots[k].inum;
      assert IsEntry(t, d, k, names[0], next);
      NamedIsLinked(t, home, d, names[0], next);
      var rest := WalkFollows(t, home, next, names[1..]);
      via := [d] + rest;
      forall x | 0 <= x < |names|
        ensures Names(t, via[x], names[x], via[x + 1])
      {
        if x > 0 {
          assert Names(t, rest[x - 1], names[1..][x - 1], rest[x]);
        }
      }
    }
  }

  lemma {:induction false} ChainIsFollowed(t: Tree, home: map<nat, (nat, nat)>, via: seq<nat>, names: seq<Name>)
    requires Inv(t, home) && Chain(t, via, names) && (names != [] ==> Linked(t, via[0]))
    ensures Walk(t, via[0], names) == Some(via[|names|])
    decreases |names|
  {
    if names != [] {
      assert Names(t, via[0], names[0], via[1]);
      OneName(t, home, via[0], names[0], via[1]);
      NamedIsLinked(t, home, via[0], names[0], via[1]);
      var rest, later := via[1..], names[1..];
      forall x | 0 <= x < |later|
        ensures Names(t, rest[x], later[x], rest[x + 1])
      {
        assert Names(t, via[x + 1], names[x + 1], via[x + 2]);
      }
      assert later != [] ==> Names(t, rest[0], later[0], rest[1]);
      ChainIsFollowed(t, home, rest, later);
      assert Walk(t, via[0], names) == Walk(t, via[1], later);
    }
  }

  // ---------- what create, link and unlink change ----------

  /** The entry called name of d is now for inode i, or there is none when i is 0; all other entries of the directories
      but those of other are as they were. */
  ghost predicate Renamed(t: Tree, t': Tree, d: nat, name: Name, i: nat, other: nat) {
    forall e: nat, x: Name, j: nat {:trigger Names(t', e, x, j)} :: e != other ==>
      (Names(t', e, x, j) <==> if e == d && x == name then j == i && i != 0 else Names(t, e, x, j))
  }

  lemma PutNames(t: Tree, t': Tree, d: nat, k: nat, name: Name, i: nat, other: nat)
    requires CanPut(t, d, k, name) && i != 0 && d != other && d in t' && t'[d].kind.Dir?
    requires t'[d].slots == PutSlot(t[d].slots, k, Entry(i, name))
    requires forall e {:trigger t'[e]} :: e != d && e != other ==>
               (e in t' <==> e in t) && (e in t ==> t'[e].kind == t[e].kind && t'[e].slots == t[e].slots)
    ensures Renamed(t, t', d, name, i, other)
  {
    forall e: nat, x: Name, j: nat | e != other
      ensures Names(t', e, x, j) <==> if e == d && x == name then j == i else Names(t, e, x, j)
    {
      PutName(t, t', d, k, name, i, e, x, j);
    }
  }

  lemma PutName(t: Tree, t': Tree, d: nat, k: nat, name: Name, i: nat, e: nat, x: Name, j: nat)
    requires CanPut(t, d, k, name) && i != 0 && d in t' && t'[d].kind.Dir?
    requires t'[d].slots == PutSlot(t[d].slots, k, Entry(i, name))
    requires e != d ==> (e in t' <==> e in t) && (e in t ==> t'[e].kind == t[e].kind && t'[e].slots == t[e].slots)
    ensures Names(t', e, x, j) <==> if e == d && x == name then j == i else Names(t, e, x, j)
  {
    assert IsEntry(t', d, k, name, i);
    if Names(t', e, x, j) {
      var l: nat :| IsEntry(t', e, l, x, j);
      assert (e == d && l == k) || IsEntry(t, e, l, x, j);
    }
    if Names(t, e, x, j) {
      var l: nat :| IsEntry(t, e, l, x, j);
      assert IsEntry(t', e, l, x, j);
    }
  }

  /** A new inode has the kind asked for, one link, and the new name for it; a new directory has "." and ".." alone. */
  lemma CreatedMeans(t: Tree, home: map<nat, (nat, nat)>, d: nat, name: Name, kind: Kind, i: nat)
    requires Inv(t, home) && i in t && t[i] == NONODE && kind != NoKind
    requires Linked(t, d) && Find(t[d].slots, name, 0) == |t[d].slots|
    ensures i != d
    ensures var t' := Created(t, d, name, kind, i);
            && i in t' && t'[i].kind == kind && t'[i].nlink == 1 && Renamed(t, t', d, name, i, i)
            && (forall x: Name, j: nat :: Names(t', i, x, j) <==>
                  kind.Dir? && ((x == DOT && j == i) || (x == DOTDOT && j == d)))
  {
    assert NodeOk(t, d);
    FoundNothing(t, d, name);
    var t', k := Created(t, d, name, kind, i), FirstEmpty(t[d].slots, 0);
    PutNames(t, t', d, k, name, i, i);
    forall x: Name, j: nat
      ensures Names(t', i, x, j) <==> kind.Dir? && ((x == DOT && j == i) || (x == DOTDOT && j == d))
    {
      assert kind.Dir? ==> IsEntry(t', i, 0, DOT, i) && IsEntry(t', i, 1, DOTDOT, d);
    }
  }

  /** A link is one more name for the same inode. */
  lemma LinkedMeans(t: Tree, home: map<nat, (nat, nat)>, d: nat, name: Name, i: nat)
    requires Inv(t, home) && i in t && !t[i].kind.Dir? && t[i].kind != NoKind
    requires Linked(t, d) && Find(t[d].slots, name, 0) == |t[d].slots|
    ensures var t' := AddLinks(Put(t, d, FirstEmpty(t[d].slots, 0), Entry(i, name)), i, 1);
            && t'[i] == t[i].(nlink := t[i].nlink + 1) && Renamed(t, t', d, name, i, 0)
  {
    assert NodeOk(t, d);
    FoundNothing(t, d, name);
    PutNames(t, AddLinks(Put(t, d, FirstEmpty(t[d].slots, 0), Entry(i, name)), i, 1), d, FirstEmpty(t[d].slots, 0),
             name, i, 0);
  }

  /** After unlink the name is gone, and no other. */
  lemma UnlinkedMeans(t: Tree, home: map<nat, (nat, nat)>, d: nat, k: nat, t': Tree)
    requires Inv(t, home) && Linked(t, d) && k < |t[d].slots| && t[d].slots[k].inum != 0
    requires t'.Keys == t.Keys && t'[d].slots == t[d].slots[k := EMPTY]
    requires forall e {:trigger t'[e]} :: e in t ==> t'[e].kind == t[e].kind && (e != d ==> t'[e].slots == t[e].slots)
    ensures Renamed(t, t', d, t[d].slots[k].name, 0, 0)
  {
    assert DirOk(t, d);
    forall e: nat, x: Name, j: nat | e != 0
      ensures Names(t', e, x, j) <==> !(e == d && x == t[d].slots[k].name) && Names(t, e, x, j)
    {
      if Names(t', e, x, j) {
        var l: nat :| IsEntry(t', e, l, x, j);
        assert IsEntry(t, e, l, x, j);
      }
      if Names(t, e, x, j) && !(e == d && x == t[d].slots[k].name) {
        var l: nat :| IsEntry(t, e, l, x, j);
        assert IsEntry(t', e, l, x, j);
      }
    }
  }

  // ---------- paths as text ----------

  predicate Plain(s: string) {
    '/' !in s
  }

  /** A path is its first name, and what follows the slash behind it. */
  lemma {:induction false} ElementsJoin(a: string, b: string)
    ensures Elements(a + "/" + b) == Elements(a) + Elements(b)
    decreases |a|
  {
    var path := a + "/" + b;
    if a == [] {
      assert path[1..] == b;
    } else if a[0] == '/' {
      assert path[1..] == a[1..] + "/" + b;
      ElementsJoin(a[1..], b);
    } else {
      var n := ElemLength(a);
      LengthIs(path, n);
      assert path[..n] == a[..n] && path[n..] == a[n..] + "/" + b;
      ElementsJoin(a[n..], b);
    }
  }

  lemma ElementsPlain(s: string)
    requires Plain(s)
    ensures Elements(s) == if s == "" then [] else [Clip(s)]
  {
    LengthIs(s, |s|);
    assert s[..|s|] == s && s[|s|..] == "";
  }

  /** The names of a path, a slash after each. */
  function Joined(names: seq<Name>): string {
    if names == [] then "" else names[0] + "/" + Joined(names[1..])
  }

  /** A path written from names is read back as these names; a lookup of it follows just them. */
  lemma {:induction false} JoinedElements(names: seq<Name>)
    requires forall k :: 0 <= k < |names| ==> names[k] != "" && Plain(names[k])
    ensures Elements(Joined(names)) == names && Elements("/" + Joined(names)) == names
    decreases |names|
  {
    if names != [] {
      JoinedElements(names[1..]);
      ElementsPlain(names[0]);
      ElementsJoin(names[0], Joined(names[1..]));
      assert names == [names[0]] + names[1..];
    }
    assert ("/" + Joined(names))[1..] == Joined(names);
  }
}
