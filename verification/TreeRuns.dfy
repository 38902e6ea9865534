/** Any series of calls on directories, from mkfs on, leaves one tree: every directory in use can be reached from the
    root, and goes back to it. */
module TreeRuns {
  import opened Basics
  import opened Params
  import opened Directories
  import opened FileTree
  import opened Paths

  // ---------- no cycles ----------

  /** rank grows from a directory to those in it. */
  ghost predicate RankOk(t: Tree, rank: map<nat, nat>, e: nat) {
    Linked(t, e) && e != ROOTINO ==>
      && e in rank && |t[e].slots| >= 2
      && (t[e].slots[1].inum == ROOTINO || (t[e].slots[1].inum in rank && rank[t[e].slots[1].inum] < rank[e]))
  }

  ghost predicate Ranked(t: Tree, rank: map<nat, nat>) {
    forall e {:trigger RankOk(t, rank, e)} :: e in t ==> RankOk(t, rank, e)
  }

  function RankOf(rank: map<nat, nat>, d: nat): nat {
    if d in rank then rank[d] else 0
  }

  lemma CreatedRanked(t: Tree, home: map<nat, (nat, nat)>, d: nat, name: Name, kind: Kind, i: nat, rank: map<nat, nat>)
    requires Inv(t, home) && i in t && t[i] == NONODE && kind != NoKind && Ranked(t, rank)
    requires Linked(t, d) && Find(t[d].slots, name, 0) == |t[d].slots|
    ensures i != d && Ranked(Created(t, d, name, kind, i), rank[i := RankOf(rank, d) + 1])
  {
    assert NodeOk(t, d);
    FoundNothing(t, d, name);
    PutPlace(t, home, d, FirstEmpty(t[d].slots, 0), name);
    var t', rank' := Created(t, d, name, kind, i), rank[i := RankOf(rank, d) + 1];
    assert RankOk(t, rank, d);
    forall e | e in t'
      ensures RankOk(t', rank', e)
    {
      assert RankOk(t, rank, e) && DirOk(t, e);
    }
  }

  /** Steps that make no directory. */
  lemma KeptRanked(t: Tree, home: map<nat, (nat, nat)>, t': Tree, rank: map<nat, nat>)
    requires Inv(t, home) && Ranked(t, rank) && t'.Keys == t.Keys
    requires forall e {:trigger t'[e]} :: e in t && Linked(t', e) ==>
               Linked(t, e) && |t'[e].slots| >= 2 && |t[e].slots| >= 2 && t'[e].slots[1] == t[e].slots[1]
    ensures Ranked(t', rank)
  {
    forall e | e in t'
      ensures RankOk(t', rank, e)
    {
      assert RankOk(t, rank, e);
    }
  }

  /** Every directory in use is on a path from the root. */
  lemma {:induction false} Reached(t: Tree, home: map<nat, (nat, nat)>, rank: map<nat, nat>, e: nat)
    returns (names: seq<Name>)
    requires Inv(t, home) && Ranked(t, rank) && Linked(t, e)
    ensures Walk(t, ROOTINO, names) == Some(e)
    decreases if e == ROOTINO then 0 else RankOf(rank, e) + 1
  {
    names := [];
    if e != ROOTINO {
      assert RankOk(t, rank, e) && HomeOk(t, home, e);
      var d, k := home[e].0, home[e].1;
      var above := Reached(t, home, rank, d);
      var name := t[d].slots[k].name;
      assert DirOk(t, d) && NodeOk(t, ROOTINO);
      assert IsEntry(t, d, k, name, e);
      OneName(t, home, d, name, e);
      WalkJoin(t, ROOTINO, above, [name]);
      names := above + [name];
    }
  }

  function Ups(n: nat): seq<Name> {
    seq(n, _ => DOTDOT)
  }

  /** Going up often enough comes to the root. */
  lemma {:induction false} GoesUp(t: Tree, home: map<nat, (nat, nat)>, rank: map<nat, nat>, e: nat) returns (n: nat)
    requires Inv(t, home) && Ranked(t, rank) && Linked(t, e)
    ensures Walk(t, e, Ups(n)) == Some(ROOTINO)
    decreases if e == ROOTINO then 0 else RankOf(rank, e) + 1
  {
    n := 0;
    if e != ROOTINO {
      assert RankOk(t, rank, e) && HomeOk(t, home, e);
      DotAndDotDot(t, home, e);
      var m := GoesUp(t, home, rank, home[e].0);
      n := m + 1;
      WalkJoin(t, e, [DOTDOT], Ups(m));
      assert Ups(n) == [DOTDOT] + Ups(m);
    }
  }

  // ---------- one call ----------

  datatype Call =
    | Create(d: nat, name: Name, kind: Kind, room1: bool, room2: bool, room3: bool)
    | Link(i: nat, d: nat, name: Name, room: bool)
    | Unlink(d: nat, name: Name)
    | Put(i: nat, last: bool)

  /** The calls that the system calls make: on inodes in use and on directories that are linked. */
  predicate Allowed(t: Tree, c: Call) {
    match c
    case Create(d, _, kind, _, _, _) => Linked(t, d) && kind != NoKind
    case Link(i, d, _, _) => i in t && t[i].kind != NoKind && Linked(t, d)
    case Unlink(d, _) => Linked(t, d)
    case Put(i, _) => i in t
  }

  method Do(fs: Fs, c: Call, ghost rank: map<nat, nat>) returns (ghost rank': map<nat, nat>)
    requires fs.Valid() && Ranked(fs.t, rank) && Allowed(fs.t, c)
    modifies fs
    ensures fs.Valid() && Ranked(fs.t, rank')
  {
    ghost var t, home := fs.t, fs.home;
    rank' := rank;
    match c {
      case Create(d, name, kind, room1, room2, room3) =>
        var i := fs.Create(d, name, kind, room1, room2, room3);
        if i != 0 && Find(t[d].slots, name, 0) == |t[d].slots| {
          CreatedRanked(t, home, d, name, kind, i, rank);
          rank' := rank[i := RankOf(rank, d) + 1];
        }
      case Link(i, d, name, room) =>
        var ok := fs.Link(i, d, name, room);
        if ok {
          FoundNothing(t, d, name);
          PutPlace(t, home, d, FirstEmpty(t[d].slots, 0), name);
        }
        SameDirs(t, home, fs.t, fs.home, rank);
      case Unlink(d, name) =>
        var i := fs.Unlink(d, name);
        if i != 0 {
          EntryPlace(t, home, d, Find(t[d].slots, name, 0));
        }
        SameDirs(t, home, fs.t, fs.home, rank);
      case Put(i, last) =>
        fs.IPut(i, last);
        SameDirs(t, home, fs.t, fs.home, rank);
    }
  }

  /** A step that links no directory and leaves every "..". */
  lemma SameDirs(t: Tree, home: map<nat, (nat, nat)>, t': Tree, home': map<nat, (nat, nat)>, rank: map<nat, nat>)
    requires Inv(t, home) && Inv(t', home') && Ranked(t, rank) && t'.Keys == t.Keys
    requires forall e {:trigger t'[e]} :: e in t && Linked(t', e) ==>
               Linked(t, e) && (|t[e].slots| >= 2 && |t'[e].slots| >= 2 ==> t'[e].slots[1] == t[e].slots[1])
    ensures Ranked(t', rank)
  {
    forall e | e in t && Linked(t', e)
      ensures |t'[e].slots| >= 2 && |t[e].slots| >= 2
    {
      assert DirOk(t, e) && DirOk(t', e);
    }
    KeptRanked(t, home, t', rank);
  }

  // ---------- any series of them ----------

  ghost predicate BelowRoot(t: Tree, e: nat) {
    exists names :: Walk(t, ROOTINO, names) == Some(e)
  }

  ghost predicate RisesToRoot(t: Tree, e: nat) {
    exists n: nat :: Walk(t, e, Ups(n)) == Some(ROOTINO)
  }

  /** After mkfs and any calls, every directory in use is found from the root, and ".." leads from it to the root. */
  method AnyRun(ninodes: nat, calls: seq<Call>) returns (fs: Fs)
    requires ninodes > ROOTINO
    ensures fresh(fs) && fs.Valid()
    ensures forall e: nat :: Linked(fs.t, e) ==> BelowRoot(fs.t, e) && RisesToRoot(fs.t, e)
  {
    fs := new Fs(ninodes);
    ghost var rank: map<nat, nat> := map[];
    for k := 0 to |calls|
      invariant fresh(fs) && fs.Valid() && Ranked(fs.t, rank)
    {
      if Allowed(fs.t, calls[k]) {
        rank := Do(fs, calls[k], rank);
      }
    }
    forall e: nat | Linked(fs.t, e)
      ensures BelowRoot(fs.t, e) && RisesToRoot(fs.t, e)
    {
      var names := Reached(fs.t, fs.home, rank, e);
      var n := GoesUp(fs.t, fs.home, rank, e);
    }
  }
}
