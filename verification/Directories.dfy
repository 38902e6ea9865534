/** Directories and link counts. */
module Directories {
  import opened Params

  const DIRSIZ := 14

  /** A file name: what of it fits into a directory entry. */
  type Name = s: string | |s| <= DIRSIZ witness ""

  const DOT: Name := "."
  const DOTDOT: Name := ".."

  /** inum 0 marks an empty slot. */
  datatype Entry = Entry(inum: nat, name: Name)

  datatype Kind = NoKind | Dir | File | Device

  /** An inode, with its contents as directory slots if it is a directory. */
  datatype Node = Node(kind: Kind, nlink: nat, slots: seq<Entry>)

  type Tree = map<nat, Node>

  const EMPTY := Entry(0, "")
  const NONODE := Node(NoKind, 0, [])

  predicate Linked(t: Tree, d: nat) {
    d in t && t[d].kind.Dir? && t[d].nlink > 0
  }

  /** Slot k of d is an entry that counts as a link to i. */
  predicate LinksTo(t: Tree, d: nat, k: nat, i: nat) {
    Linked(t, d) && k < |t[d].slots| && t[d].slots[k].inum == i && t[d].slots[k].name != DOT
  }

  /** All links to i. */
  function Refs(t: Tree, i: nat): set<(nat, nat)> {
    set d, k | d in t && 0 <= k < |t[d].slots| && LinksTo(t, d, k, i) :: (d, k)
  }

  // ---------- the invariant ----------

  predicate UniqueNames(s: seq<Entry>) {
    forall j, k {:trigger s[j], s[k]} :: 0 <= j < k < |s| && s[j].inum != 0 && s[k].inum != 0 ==> s[j].name != s[k].name
  }

  /** A linked directory starts with "." and "..", names are unique, and entries name inodes in use. */
  ghost predicate DirOk(t: Tree, d: nat) {
    Linked(t, d) ==>
      && |t[d].slots| >= 2 && t[d].slots[0] == Entry(d, DOT) && t[d].slots[1].name == DOTDOT
      && Linked(t, t[d].slots[1].inum)
      && UniqueNames(t[d].slots)
      && forall k {:trigger t[d].slots[k]} :: 0 <= k < |t[d].slots| && t[d].slots[k].inum != 0 ==>
           t[d].slots[k].inum in t
  }

  ghost predicate NodeOk(t: Tree, i: nat) {
    i in t && |Refs(t, i)| == t[i].nlink && (t[i].kind == NoKind ==> t[i] == NONODE)
  }

  /** A linked directory other than the root has one proper entry, in the directory its ".." names; no
      proper entry names the root. home says where that entry is. */
  ghost predicate HomeOk(t: Tree, home: map<nat, (nat, nat)>, e: nat) {
    Linked(t, e) && e != ROOTINO ==>
      && e in home && home[e].1 >= 2 && LinksTo(t, home[e].0, home[e].1, e)
      && |t[e].slots| >= 2 && t[e].slots[1].inum == home[e].0
  }

  ghost predicate AtHome(t: Tree, home: map<nat, (nat, nat)>, d: nat, k: nat) {
    k >= 2 && d in t && k < |t[d].slots| && LinksTo(t, d, k, t[d].slots[k].inum) && Linked(t, t[d].slots[k].inum) ==>
      t[d].slots[k].inum != ROOTINO && t[d].slots[k].inum in home && home[t[d].slots[k].inum] == (d, k)
  }

  ghost predicate NodesOk(t: Tree) {
    forall i {:trigger NodeOk(t, i)} :: i in t ==> NodeOk(t, i)
  }

  ghost predicate DirsOk(t: Tree) {
    forall d {:trigger DirOk(t, d)} :: d in t ==> DirOk(t, d)
  }

  ghost predicate HomesOk(t: Tree, home: map<nat, (nat, nat)>) {
    forall e {:trigger HomeOk(t, home, e)} :: e in t ==> HomeOk(t, home, e)
  }

  ghost predicate AllAtHome(t: Tree, home: map<nat, (nat, nat)>) {
    forall d, k {:trigger AtHome(t, home, d, k)} :: d in t && 0 <= k < |t[d].slots| ==> AtHome(t, home, d, k)
  }

  ghost predicate RootOk(t: Tree) {
    Linked(t, ROOTINO) && 0 !in t && |t[ROOTINO].slots| >= 2 && t[ROOTINO].slots[1].inum == ROOTINO
  }

  ghost predicate Inv(t: Tree, home: map<nat, (nat, nat)>) {
    RootOk(t) && NodesOk(t) && DirsOk(t) && HomesOk(t, home) && AllAtHome(t, home)
  }

  /** iput frees an inode without links only: no entry of a linked directory names it. */
  lemma NoLinkNoName(t: Tree, home: map<nat, (nat, nat)>, i: nat, d: nat, k: nat)
    requires Inv(t, home) && i in t && t[i].nlink == 0 && Linked(t, d) && k < |t[d].slots|
    ensures t[d].slots[k].inum != i
  {
    assert NodeOk(t, i) && NodeOk(t, d) && DirOk(t, d);
    assert t[d].slots[k].name == DOT && t[d].slots[k].inum != 0 ==> k == 0;
    assert Refs(t, i) == {};
    assert LinksTo(t, d, k, i) ==> (d, k) in Refs(t, i);
  }

  const DPB := 64  // directory entries per block

  /** mkfs makes the root directory one block long. */
  function FirstNode(i: nat): Node {
    if i == ROOTINO then
      Node(Dir, 1, [Entry(ROOTINO, DOT), Entry(ROOTINO, DOTDOT)] + seq(DPB - 2, _ => EMPTY))
    else
      NONODE
  }

  /** A root directory with its two entries, which both name it, and no other inode in use. */
  lemma RootAlone(t: Tree)
    requires ROOTINO in t && 0 !in t
    requires forall i :: i in t ==> t[i] == FirstNode(i)
    ensures Inv(t, map[])
  {
    forall i | i in t
      ensures NodeOk(t, i) && DirOk(t, i)
    {
      RootRefs(t, i);
    }
  }

  lemma RootRefs(t: Tree, i: nat)
    requires ROOTINO in t && 0 !in t && i in t
    requires forall j :: j in t ==> t[j] == FirstNode(j)
    ensures Refs(t, i) == if i == ROOTINO then {(ROOTINO, 1)} else {}
  {
    forall d: nat, k: nat
      ensures (d, k) in Refs(t, i) <==> i == ROOTINO && d == ROOTINO && k == 1
    {
      if d in t {
        assert t[d] == FirstNode(d);
      }
    }
  }

  // ---------- steps ----------

  function PutSlot(s: seq<Entry>, k: nat, e: Entry): (r: seq<Entry>)
    requires k <= |s|
    ensures |r| == (if k < |s| then |s| else k + 1) && r[k] == e && forall j :: 0 <= j < |s| && j != k ==> r[j] == s[j]
  {
    if k < |s| then s[k := e] else s + [e]
  }

  function Put(t: Tree, d: nat, k: nat, e: Entry): Tree
    requires d in t && k <= |t[d].slots|
  {
    t[d := t[d].(slots := PutSlot(t[d].slots, k, e))]
  }

  function AddLinks(t: Tree, i: nat, n: int): Tree
    requires i in t && t[i].nlink + n >= 0
  {
    t[i := t[i].(nlink := t[i].nlink + n)]
  }

  /** Slot k of the linked directory d can take a new entry called name. */
  ghost predicate CanPut(t: Tree, d: nat, k: nat, name: Name) {
    && Linked(t, d) && k <= |t[d].slots| && (k < |t[d].slots| ==> t[d].slots[k].inum == 0)
    && forall j {:trigger t[d].slots[j]} :: 0 <= j < |t[d].slots| && t[d].slots[j].inum != 0 ==>
         t[d].slots[j].name != name
  }

  lemma PutUnique(s: seq<Entry>, k: nat, e: Entry)
    requires UniqueNames(s) && k <= |s| && (k < |s| ==> s[k].inum == 0)
    requires forall j {:trigger s[j]} :: 0 <= j < |s| && s[j].inum != 0 ==> s[j].name != e.name
    ensures UniqueNames(PutSlot(s, k, e))
  {
  }

  lemma ClearUnique(s: seq<Entry>, k: nat)
    requires UniqueNames(s) && k < |s|
    ensures UniqueNames(s[k := EMPTY])
  {
  }

  /** The new slot comes after "." and "..", and its name is not one of these. */
  lemma PutPlace(t: Tree, home: map<nat, (nat, nat)>, d: nat, k: nat, name: Name)
    requires Inv(t, home) && CanPut(t, d, k, name)
    ensures k >= 2 && name != DOT && name != DOTDOT
  {
    assert DirOk(t, d) && NodeOk(t, d) && NodeOk(t, t[d].slots[1].inum);
  }

  /** How the links to j change, from how each place changes. */
  lemma RefsChange(t: Tree, t': Tree, j: nat, minus: set<(nat, nat)>, plus: set<(nat, nat)>)
    requires t'.Keys == t.Keys && forall x {:trigger x in plus} :: x in plus ==> x.0 in t
    requires forall e: nat, l: nat {:trigger LinksTo(t', e, l, j)} :: e in t ==>
               (LinksTo(t', e, l, j) <==> (LinksTo(t, e, l, j) && (e, l) !in minus) || (e, l) in plus)
    ensures Refs(t', j) == Refs(t, j) - minus + plus
  {
    forall e: nat, l: nat
      ensures (e, l) in Refs(t', j) <==> (e, l) in Refs(t, j) - minus + plus
    {
      if e in t {
        assert LinksTo(t', e, l, j) <==> (LinksTo(t, e, l, j) && (e, l) !in minus) || (e, l) in plus;
      }
    }
  }

  lemma SizeWithout(s: set<(nat, nat)>, x: (nat, nat))
    requires x in s
    ensures |s - {x}| == |s| - 1
  {
  }

  lemma SizeWith(s: set<(nat, nat)>, x: (nat, nat))
    requires x !in s
    ensures |s + {x}| == |s| + 1
  {
  }

  /** A new entry for an inode that is not a directory is one new link. */
  lemma NewLink(t: Tree, home: map<nat, (nat, nat)>, d: nat, k: nat, i: nat, name: Name, t': Tree, j: nat)
    requires Inv(t, home) && CanPut(t, d, k, name) && i in t && t[i].kind != NoKind && !t[i].kind.Dir? && j != 0
    requires t' == AddLinks(Put(t, d, k, Entry(i, name)), i, 1)
    ensures Refs(t', j) == Refs(t, j) + (if j == i then {(d, k)} else {}) && (d, k) !in Refs(t, i)
  {
    PutPlace(t, home, d, k, name);
    assert NodeOk(t, i);
    RefsChange(t, t', j, {}, if j == i then {(d, k)} else {});
  }

  /** t' differs from t in slot k of d and in link counts of inodes that are not directories. */
  ghost predicate FileStep(t: Tree, d: nat, k: nat, t': Tree) {
    && t'.Keys == t.Keys && Linked(t, d) && 2 <= k <= |t[d].slots| && k < |t'[d].slots|
    && t'[d].slots == PutSlot(t[d].slots, k, t'[d].slots[k])
    && (t'[d].slots[k].inum != 0 ==> t'[d].slots[k].inum in t && !t[t'[d].slots[k].inum].kind.Dir?)
    && (k < |t[d].slots| && t[d].slots[k].inum != 0 ==> t[d].slots[k].inum in t && !t[t[d].slots[k].inum].kind.Dir?)
    && UniqueNames(t'[d].slots)
    && forall i {:trigger t'[i]} :: i in t ==>
         && t'[i].kind == t[i].kind && (i != d ==> t'[i].slots == t[i].slots)
         && (t[i].kind.Dir? ==> t'[i].nlink == t[i].nlink)
  }

  lemma FileStepDir(t: Tree, home: map<nat, (nat, nat)>, d: nat, k: nat, t': Tree, e: nat)
    requires Inv(t, home) && FileStep(t, d, k, t') && e in t
    ensures DirOk(t', e)
  {
    assert DirOk(t, e);
    assert Linked(t, e) ==> Linked(t', t[e].slots[1].inum);
  }

  lemma FileStepHome(t: Tree, home: map<nat, (nat, nat)>, d: nat, k: nat, t': Tree, e: nat)
    requires Inv(t, home) && FileStep(t, d, k, t') && e in t
    ensures HomeOk(t', home, e)
  {
    assert HomeOk(t, home, e) && NodeOk(t, e);
  }

  lemma FileStepAtHome(t: Tree, home: map<nat, (nat, nat)>, d: nat, k: nat, t': Tree, e: nat, l: nat)
    requires Inv(t, home) && FileStep(t, d, k, t') && e in t && l < |t'[e].slots|
    ensures AtHome(t', home, e, l)
  {
    assert l < |t[e].slots| ==> AtHome(t, home, e, l);
    assert DirOk(t, e) && NodeOk(t, e);
  }

  lemma FileStepDirs(t: Tree, home: map<nat, (nat, nat)>, d: nat, k: nat, t': Tree)
    requires Inv(t, home) && FileStep(t, d, k, t')
    ensures DirsOk(t') && HomesOk(t', home) && RootOk(t')
  {
    forall e | e in t'
      ensures DirOk(t', e) && HomeOk(t', home, e)
    {
      FileStepDir(t, home, d, k, t', e);
      FileStepHome(t, home, d, k, t', e);
    }
  }

  lemma FileStepKeeps(t: Tree, home: map<nat, (nat, nat)>, d: nat, k: nat, t': Tree)
    requires Inv(t, home) && FileStep(t, d, k, t') && NodesOk(t')
    ensures Inv(t', home)
  {
    FileStepDirs(t, home, d, k, t');
    forall e, l | e in t' && 0 <= l < |t'[e].slots|
      ensures AtHome(t', home, e, l)
    {
      FileStepAtHome(t, home, d, k, t', e, l);
    }
  }

  lemma LinkIsFileStep(t: Tree, home: map<nat, (nat, nat)>, d: nat, k: nat, i: nat, name: Name)
    requires Inv(t, home) && CanPut(t, d, k, name) && i in t && t[i].kind != NoKind && !t[i].kind.Dir?
    ensures FileStep(t, d, k, AddLinks(Put(t, d, k, Entry(i, name)), i, 1))
  {
    PutPlace(t, home, d, k, name);
    assert DirOk(t, d);
    PutUnique(t[d].slots, k, Entry(i, name));
  }

  lemma LinkNode(t: Tree, home: map<nat, (nat, nat)>, d: nat, k: nat, i: nat, name: Name, j: nat)
    requires Inv(t, home) && CanPut(t, d, k, name) && i in t && t[i].kind != NoKind && !t[i].kind.Dir? && j in t
    ensures NodeOk(AddLinks(Put(t, d, k, Entry(i, name)), i, 1), j)
  {
    var t' := AddLinks(Put(t, d, k, Entry(i, name)), i, 1);
    assert NodeOk(t, j);
    NewLink(t, home, d, k, i, name, t', j);
  }

  /** link, and the last step of create for a file: the entry and the link count together. */
  lemma LinkKeeps(t: Tree, home: map<nat, (nat, nat)>, d: nat, k: nat, i: nat, name: Name)
    requires Inv(t, home) && CanPut(t, d, k, name) && i in t && t[i].kind != NoKind && !t[i].kind.Dir?
    ensures Inv(AddLinks(Put(t, d, k, Entry(i, name)), i, 1), home)
  {
    var t' := AddLinks(Put(t, d, k, Entry(i, name)), i, 1);
    forall j | j in t
      ensures NodeOk(t', j)
    {
      LinkNode(t, home, d, k, i, name, j);
    }
    LinkIsFileStep(t, home, d, k, i, name);
    FileStepKeeps(t, home, d, k, t');
  }

  lemma UnlinkRef(t: Tree, d: nat, k: nat, t': Tree, i: nat, j: nat)
    requires LinksTo(t, d, k, i) && i in t && t[i].nlink > 0 && !t[i].kind.Dir?
    requires t' == AddLinks(Put(t, d, k, EMPTY), i, -1) && j in t && 0 !in t
    ensures Refs(t', j) == Refs(t, j) - (if j == i then {(d, k)} else {}) && (d, k) in Refs(t, i)
  {
    RefsChange(t, t', j, if j == i then {(d, k)} else {}, {});
  }

  /** Slot k of d is the entry of a file. */
  ghost predicate FileEntry(t: Tree, d: nat, k: nat) {
    && Linked(t, d) && 2 <= k < |t[d].slots| && t[d].slots[k].inum in t && t[d].slots[k].name != DOT
    && !t[t[d].slots[k].inum].kind.Dir?
  }

  lemma FileEntryCounts(t: Tree, home: map<nat, (nat, nat)>, d: nat, k: nat)
    requires Inv(t, home) && FileEntry(t, d, k)
    ensures t[t[d].slots[k].inum].nlink > 0
  {
    var i := t[d].slots[k].inum;
    assert NodeOk(t, i);
    assert LinksTo(t, d, k, i);
    assert (d, k) in Refs(t, i);
  }

  lemma UnlinkNode(t: Tree, home: map<nat, (nat, nat)>, d: nat, k: nat, j: nat)
    requires Inv(t, home) && FileEntry(t, d, k) && j in t && t[t[d].slots[k].inum].nlink > 0
    ensures NodeOk(AddLinks(Put(t, d, k, EMPTY), t[d].slots[k].inum, -1), j)
  {
    assert NodeOk(t, j) && NodeOk(t, t[d].slots[k].inum);
    UnlinkRef(t, d, k, AddLinks(Put(t, d, k, EMPTY), t[d].slots[k].inum, -1), t[d].slots[k].inum, j);
  }

  lemma UnlinkIsFileStep(t: Tree, home: map<nat, (nat, nat)>, d: nat, k: nat)
    requires Inv(t, home) && FileEntry(t, d, k) && t[t[d].slots[k].inum].nlink > 0
    ensures FileStep(t, d, k, AddLinks(Put(t, d, k, EMPTY), t[d].slots[k].inum, -1))
  {
    assert DirOk(t, d);
    ClearUnique(t[d].slots, k);
  }

  /** unlink of a file. */
  lemma UnlinkFileKeeps(t: Tree, home: map<nat, (nat, nat)>, d: nat, k: nat)
    requires Inv(t, home) && FileEntry(t, d, k)
    ensures var i := t[d].slots[k].inum; t[i].nlink > 0 && Inv(AddLinks(Put(t, d, k, EMPTY), i, -1), home)
  {
    FileEntryCounts(t, home, d, k);
    var t' := AddLinks(Put(t, d, k, EMPTY), t[d].slots[k].inum, -1);
    forall j | j in t
      ensures NodeOk(t', j)
    {
      UnlinkNode(t, home, d, k, j);
    }
    UnlinkIsFileStep(t, home, d, k);
    FileStepKeeps(t, home, d, k, t');
  }

  // ---------- inodes come and go ----------

  lemma SwapNode(t: Tree, home: map<nat, (nat, nat)>, i: nat, x: Node, j: nat)
    requires Inv(t, home) && i in t && t[i].nlink == 0 && x.nlink == 0 && (x.kind == NoKind ==> x == NONODE) && j in t
    ensures NodeOk(t[i := x], j) && DirOk(t[i := x], j) && HomeOk(t[i := x], home, j)
  {
    assert NodeOk(t, j) && DirOk(t, j) && HomeOk(t, home, j);
    SameRefs(t, t[i := x], j);
  }

  lemma SwapAtHome(t: Tree, home: map<nat, (nat, nat)>, i: nat, x: Node, d: nat, k: nat)
    requires Inv(t, home) && i in t && t[i].nlink == 0 && x.nlink == 0 && d in t && k < |t[i := x][d].slots|
    ensures AtHome(t[i := x], home, d, k)
  {
    assert d != i ==> AtHome(t, home, d, k);
  }

  lemma SwapNodes(t: Tree, home: map<nat, (nat, nat)>, i: nat, x: Node)
    requires Inv(t, home) && i in t && t[i].nlink == 0 && x.nlink == 0 && (x.kind == NoKind ==> x == NONODE)
    ensures NodesOk(t[i := x]) && DirsOk(t[i := x]) && HomesOk(t[i := x], home)
  {
    forall j | j in t
      ensures NodeOk(t[i := x], j) && DirOk(t[i := x], j) && HomeOk(t[i := x], home, j)
    {
      SwapNode(t, home, i, x, j);
    }
  }

  /** An inode without links is replaced by another without links. */
  lemma SwapUnlinked(t: Tree, home: map<nat, (nat, nat)>, i: nat, x: Node)
    requires Inv(t, home) && i in t && t[i].nlink == 0 && x.nlink == 0 && (x.kind == NoKind ==> x == NONODE)
    ensures Inv(t[i := x], home)
  {
    var t' := t[i := x];
    SwapNodes(t, home, i, x);
    forall d, k | d in t' && 0 <= k < |t'[d].slots|
      ensures AtHome(t', home, d, k)
    {
      SwapAtHome(t, home, i, x, d, k);
    }
  }

  lemma SameRefs(t: Tree, t': Tree, j: nat)
    requires t'.Keys == t.Keys
    requires forall i {:trigger Linked(t', i)} :: i in t ==>
               (Linked(t', i) <==> Linked(t, i)) && (Linked(t, i) ==> t'[i].slots == t[i].slots)
    ensures Refs(t', j) == Refs(t, j)
  {
    forall e, l | e in t
      ensures LinksTo(t', e, l, j) <==> LinksTo(t, e, l, j)
    {
      assert Linked(t', e) <==> Linked(t, e);
    }
  }

  // ---------- directories come and go ----------

  function DotEntries(i: nat, p: nat): seq<Entry> {
    [Entry(i, DOT), Entry(p, DOTDOT)]
  }

  /** i is a new directory below p that nothing names yet. */
  ghost predicate NewDir(t: Tree, i: nat, p: nat) {
    i in t && t[i] == Node(Dir, 0, DotEntries(i, p))
  }

  function Attached(t: Tree, d: nat, k: nat, i: nat, name: Name): Tree
    requires d in t && i in t && k <= |t[d].slots|
  {
    AddLinks(AddLinks(Put(t, d, k, Entry(i, name)), i, 1), d, 1)
  }

  ghost predicate CanAttach(t: Tree, d: nat, k: nat, i: nat, name: Name) {
    CanPut(t, d, k, name) && NewDir(t, i, d)
  }

  lemma AttachRefs(t: Tree, home: map<nat, (nat, nat)>, d: nat, k: nat, i: nat, name: Name, j: nat)
    requires Inv(t, home) && CanAttach(t, d, k, i, name) && j in t
    ensures Refs(Attached(t, d, k, i, name), j) ==
              Refs(t, j) + (if j == i then {(d, k)} else if j == d then {(i, 1)} else {})
    ensures (d, k) !in Refs(t, i) && (i, 1) !in Refs(t, d)
  {
    PutPlace(t, home, d, k, name);
    var t' := Attached(t, d, k, i, name);
    RefsChange(t, t', j, {}, (if j == i then {(d, k)} else {}) + (if j == d then {(i, 1)} else {}));
  }

  lemma AttachCount(t: Tree, home: map<nat, (nat, nat)>, d: nat, k: nat, i: nat, name: Name, j: nat)
    requires Inv(t, home) && CanAttach(t, d, k, i, name) && j in t
    ensures |Refs(Attached(t, d, k, i, name), j)| == |Refs(t, j)| + if j == i || j == d then 1 else 0
  {
    AttachRefs(t, home, d, k, i, name, j);
    SizeWith(Refs(t, i), (d, k));
    SizeWith(Refs(t, d), (i, 1));
    assert Refs(t, j) + {} == Refs(t, j);
  }

  lemma AttachNode(t: Tree, home: map<nat, (nat, nat)>, d: nat, k: nat, i: nat, name: Name, j: nat)
    requires Inv(t, home) && CanAttach(t, d, k, i, name) && j in t
    ensures NodeOk(Attached(t, d, k, i, name), j)
  {
    assert NodeOk(t, j);
    AttachCount(t, home, d, k, i, name, j);
  }

  lemma AttachDir(t: Tree, home: map<nat, (nat, nat)>, d: nat, k: nat, i: nat, name: Name, e: nat)
    requires Inv(t, home) && CanAttach(t, d, k, i, name) && e in t
    ensures DirOk(Attached(t, d, k, i, name), e)
  {
    PutPlace(t, home, d, k, name);
    assert DirOk(t, e) && DirOk(t, d);
    PutUnique(t[d].slots, k, Entry(i, name));
    var t' := Attached(t, d, k, i, name);
    assert Linked(t, e) ==> Linked(t', t[e].slots[1].inum);
  }

  lemma AttachHome(t: Tree, home: map<nat, (nat, nat)>, d: nat, k: nat, i: nat, name: Name, e: nat)
    requires Inv(t, home) && CanAttach(t, d, k, i, name) && e in t
    ensures HomeOk(Attached(t, d, k, i, name), home[i := (d, k)], e)
  {
    PutPlace(t, home, d, k, name);
    assert HomeOk(t, home, e);
  }

  lemma AttachAtHome(t: Tree, home: map<nat, (nat, nat)>, d: nat, k: nat, i: nat, name: Name, e: nat, l: nat)
    requires Inv(t, home) && CanAttach(t, d, k, i, name) && e in t && l < |Attached(t, d, k, i, name)[e].slots|
    ensures AtHome(Attached(t, d, k, i, name), home[i := (d, k)], e, l)
  {
    assert l < |t[e].slots| ==> AtHome(t, home, e, l);
    assert NodeOk(t, i);
    assert Refs(t, i) == {};
    assert l < |t[e].slots| && LinksTo(t, e, l, i) ==> (e, l) in Refs(t, i);
  }

  lemma AttachNodes(t: Tree, home: map<nat, (nat, nat)>, d: nat, k: nat, i: nat, name: Name)
    requires Inv(t, home) && CanAttach(t, d, k, i, name)
    ensures NodesOk(Attached(t, d, k, i, name))
  {
    var t' := Attached(t, d, k, i, name);
    forall e | e in t'
      ensures NodeOk(t', e)
    {
      AttachNode(t, home, d, k, i, name, e);
    }
  }

  lemma AttachDirs(t: Tree, home: map<nat, (nat, nat)>, d: nat, k: nat, i: nat, name: Name)
    requires Inv(t, home) && CanAttach(t, d, k, i, name)
    ensures DirsOk(Attached(t, d, k, i, name)) && HomesOk(Attached(t, d, k, i, name), home[i := (d, k)])
    ensures RootOk(Attached(t, d, k, i, name))
  {
    var t', home' := Attached(t, d, k, i, name), home[i := (d, k)];
    forall e | e in t'
      ensures DirOk(t', e) && HomeOk(t', home', e)
    {
      AttachDir(t, home, d, k, i, name, e);
      AttachHome(t, home, d, k, i, name, e);
    }
    PutPlace(t, home, d, k, name);
  }

  /** The last steps of create for a directory. */
  lemma AttachKeeps(t: Tree, home: map<nat, (nat, nat)>, d: nat, k: nat, i: nat, name: Name)
    requires Inv(t, home) && CanAttach(t, d, k, i, name)
    ensures Inv(Attached(t, d, k, i, name), home[i := (d, k)])
  {
    var t', home' := Attached(t, d, k, i, name), home[i := (d, k)];
    AttachNodes(t, home, d, k, i, name);
    AttachDirs(t, home, d, k, i, name);
    forall e, l | e in t' && 0 <= l < |t'[e].slots|
      ensures AtHome(t', home', e, l)
    {
      AttachAtHome(t, home, d, k, i, name, e, l);
    }
  }

  /** Slot k of d is the entry of an empty directory. */
  ghost predicate EmptyDirEntry(t: Tree, d: nat, k: nat) {
    && Linked(t, d) && 2 <= k < |t[d].slots| && Linked(t, t[d].slots[k].inum) && t[d].slots[k].name != DOT
    && IsEmpty(t[t[d].slots[k].inum].slots)
  }

  predicate IsEmpty(s: seq<Entry>) {
    forall k {:trigger s[k]} :: 2 <= k < |s| ==> s[k].inum == 0
  }

  function Detached(t: Tree, d: nat, k: nat, i: nat): Tree
    requires d in t && i in t && d != i && k < |t[d].slots| && t[d].nlink > 0 && t[i].nlink > 0
  {
    AddLinks(AddLinks(Put(t, d, k, EMPTY), i, -1), d, -1)
  }

  /** The only link to an empty directory is its entry, its ".." names the directory of that entry, and
      no other directory is below it. */
  lemma EmptyDirAlone(t: Tree, home: map<nat, (nat, nat)>, d: nat, k: nat)
    requires Inv(t, home) && EmptyDirEntry(t, d, k)
    ensures var i := t[d].slots[k].inum;
            && i != ROOTINO && i != d && t[i].nlink == 1 && |t[i].slots| >= 2 && t[i].slots[1] == Entry(d, DOTDOT)
            && Refs(t, i) == {(d, k)} && t[d].nlink >= 2
            && forall e {:trigger t[e]} :: Linked(t, e) && |t[e].slots| >= 2 ==> t[e].slots[1].inum != i
  {
    var i := t[d].slots[k].inum;
    assert AtHome(t, home, d, k) && HomeOk(t, home, i) && DirOk(t, i) && DirOk(t, d) && NodeOk(t, i);
    assert LinksTo(t, d, k, i);
    assert i != d && t[i].slots[1] == Entry(d, DOTDOT);
    forall e | Linked(t, e) && |t[e].slots| >= 2
      ensures t[e].slots[1].inum != i
    {
      assert HomeOk(t, home, e);
    }
    forall e, l | (e, l) in Refs(t, i)
      ensures (e, l) == (d, k)
    {
      assert DirOk(t, e) && AtHome(t, home, e, l);
    }
    assert (d, k) in Refs(t, i);
    assert Refs(t, i) == {(d, k)};
    TwoLinks(t, home, d, i);
  }

  /** A directory with a directory in it has at least two links. */
  lemma TwoLinks(t: Tree, home: map<nat, (nat, nat)>, d: nat, i: nat)
    requires Inv(t, home) && Linked(t, d) && Linked(t, i) && i != d && i != ROOTINO && |t[i].slots| >= 2
    requires t[i].slots[1] == Entry(d, DOTDOT)
    ensures t[d].nlink >= 2
  {
    assert NodeOk(t, d) && DirOk(t, d) && HomeOk(t, home, d);
    var other := if d == ROOTINO then (ROOTINO, 1) else home[d];
    assert LinksTo(t, i, 1, d) && LinksTo(t, other.0, other.1, d);
    assert {(i, 1), other} <= Refs(t, d);
    AtLeastTwo(Refs(t, d), (i, 1), other);
  }

  lemma AtLeastTwo(s: set<(nat, nat)>, x: (nat, nat), y: (nat, nat))
    requires x in s && y in s && x != y
    ensures |s| >= 2
  {
    assert s == {x} + (s - {x});
    assert y in s - {x};
  }

  lemma DetachRefs(t: Tree, home: map<nat, (nat, nat)>, d: nat, k: nat, j: nat)
    requires Inv(t, home) && EmptyDirEntry(t, d, k) && j in t
    ensures var i := t[d].slots[k].inum;
            && i != d && t[d].nlink > 0 && t[i].nlink > 0
            && Refs(Detached(t, d, k, i), j) ==
                 Refs(t, j) - (if j == i then {(d, k)} else if j == d then {(i, 1)} else {})
            && (d, k) in Refs(t, i) && (i, 1) in Refs(t, d)
  {
    EmptyDirAlone(t, home, d, k);
    var i := t[d].slots[k].inum;
    var t' := Detached(t, d, k, i);
    assert DirOk(t, i);
    RefsChange(t, t', j, (if j == i then {(d, k)} else {}) + (if j == d then {(i, 1)} else {}), {});
    assert LinksTo(t, i, 1, d);
  }

  lemma DetachNode(t: Tree, home: map<nat, (nat, nat)>, d: nat, k: nat, j: nat)
    requires Inv(t, home) && EmptyDirEntry(t, d, k) && j in t
    ensures var i := t[d].slots[k].inum; i != d && t[d].nlink > 0 && NodeOk(Detached(t, d, k, i), j)
  {
    assert NodeOk(t, j);
    DetachRefs(t, home, d, k, j);
    var i := t[d].slots[k].inum;
    var t' := Detached(t, d, k, i);
    if j == i {
      SizeWithout(Refs(t, j), (d, k));
    } else if j == d {
      SizeWithout(Refs(t, j), (i, 1));
    }
  }

  lemma DetachDir(t: Tree, home: map<nat, (nat, nat)>, d: nat, k: nat, e: nat)
    requires Inv(t, home) && EmptyDirEntry(t, d, k) && e in t
    ensures var i := t[d].slots[k].inum;
            i != d && t[d].nlink > 0 && DirOk(Detached(t, d, k, i), e) && HomeOk(Detached(t, d, k, i), home, e)
  {
    EmptyDirAlone(t, home, d, k);
    assert DirOk(t, e) && HomeOk(t, home, e) && DirOk(t, d) && AtHome(t, home, d, k);
    ClearUnique(t[d].slots, k);
    var t' := Detached(t, d, k, t[d].slots[k].inum);
    assert Linked(t, e) ==> Linked(t', t[e].slots[1].inum);
  }

  lemma DetachAtHome(t: Tree, home: map<nat, (nat, nat)>, d: nat, k: nat, e: nat, l: nat)
    requires Inv(t, home) && EmptyDirEntry(t, d, k) && e in t && l < |t[e].slots|
    ensures var i := t[d].slots[k].inum; i != d && t[d].nlink > 0 && AtHome(Detached(t, d, k, i), home, e, l)
  {
    EmptyDirAlone(t, home, d, k);
    assert AtHome(t, home, e, l);
  }

  lemma DetachNodes(t: Tree, home: map<nat, (nat, nat)>, d: nat, k: nat)
    requires Inv(t, home) && EmptyDirEntry(t, d, k)
    ensures var i := t[d].slots[k].inum; i != d && t[d].nlink > 0 && NodesOk(Detached(t, d, k, i))
  {
    EmptyDirAlone(t, home, d, k);
    var t' := Detached(t, d, k, t[d].slots[k].inum);
    forall e | e in t'
      ensures NodeOk(t', e)
    {
      DetachNode(t, home, d, k, e);
    }
  }

  lemma DetachDirs(t: Tree, home: map<nat, (nat, nat)>, d: nat, k: nat)
    requires Inv(t, home) && EmptyDirEntry(t, d, k)
    ensures var i := t[d].slots[k].inum;
            && i != d && t[d].nlink > 0
            && DirsOk(Detached(t, d, k, i)) && HomesOk(Detached(t, d, k, i), home) && RootOk(Detached(t, d, k, i))
  {
    EmptyDirAlone(t, home, d, k);
    var t' := Detached(t, d, k, t[d].slots[k].inum);
    forall e | e in t'
      ensures DirOk(t', e) && HomeOk(t', home, e)
    {
      DetachDir(t, home, d, k, e);
    }
  }

  /** unlink of an empty directory. */
  lemma DetachKeeps(t: Tree, home: map<nat, (nat, nat)>, d: nat, k: nat)
    requires Inv(t, home) && EmptyDirEntry(t, d, k)
    ensures var i := t[d].slots[k].inum; i != d && t[d].nlink > 0 && t[i].nlink == 1 && Inv(Detached(t, d, k, i), home)
  {
    EmptyDirAlone(t, home, d, k);
    DetachNodes(t, home, d, k);
    DetachDirs(t, home, d, k);
    var t' := Detached(t, d, k, t[d].slots[k].inum);
    forall e, l | e in t' && 0 <= l < |t'[e].slots|
      ensures AtHome(t', home, e, l)
    {
      DetachAtHome(t, home, d, k, e, l);
    }
  }

  // ---------- lookup ----------

  /** The first live slot from k on called name, or the number of slots. */
  function Find(s: seq<Entry>, name: Name, k: nat): (r: nat)
    requires k <= |s|
    ensures k <= r <= |s| && (r < |s| ==> s[r].inum != 0 && s[r].name == name)
    decreases |s| - k
  {
    if k == |s| || (s[k].inum != 0 && s[k].name == name) then k else Find(s, name, k + 1)
  }

  lemma {:induction false} FindMisses(s: seq<Entry>, name: Name, k: nat, j: nat)
    requires k <= |s| && k <= j < Find(s, name, k)
    ensures s[j].inum == 0 || s[j].name != name
    decreases j - k
  {
    if k < j {
      FindMisses(s, name, k + 1, j);
    }
  }

  /** Because names are unique, a lookup finds the one entry of that name. */
  lemma FindIsTheOne(t: Tree, home: map<nat, (nat, nat)>, d: nat, name: Name, j: nat)
    requires Inv(t, home) && Linked(t, d) && j < |t[d].slots| && t[d].slots[j].inum != 0 && t[d].slots[j].name == name
    ensures Find(t[d].slots, name, 0) == j
  {
    assert DirOk(t, d);
    var r := Find(t[d].slots, name, 0);
    if j < r {
      FindMisses(t[d].slots, name, 0, j);
    }
  }

  /** The first empty slot from k on, or the number of slots. */
  function FirstEmpty(s: seq<Entry>, k: nat): (r: nat)
    requires k <= |s|
    ensures k <= r <= |s| && (r < |s| ==> s[r].inum == 0) && forall j :: k <= j < r ==> s[j].inum != 0
    decreases |s| - k
  {
    if k == |s| || s[k].inum == 0 then k else FirstEmpty(s, k + 1)
  }
}
