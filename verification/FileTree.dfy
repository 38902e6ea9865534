/** create, link, unlink and path lookup. */
module FileTree {
  import opened Basics
  import opened Params
  import opened Directories

  class Fs {
    const n: nat                        // sb.ninodes
    var t: Tree
    ghost var home: map<nat, (nat, nat)>

    ghost predicate Valid()
      reads this
    {
      Inv(t, home) && forall i :: i in t <==> 1 <= i < n
    }

    /** mkfs without files: the root directory alone. */
    constructor (ninodes: nat)
      requires ninodes > ROOTINO
      ensures Valid() && n == ninodes
      ensures forall i :: i in t ==> t[i] == FirstNode(i)
    {
      n := ninodes;
      t := map i: nat | 1 <= i < ninodes :: FirstNode(i);
      home := map[];
      new;
      RootAlone(t);
    }

    /** The inode number of the entry called name and its slot, or 0. */
    method DirLookup(dp: nat, name: Name) returns (i: nat, off: nat)
      requires dp in t && t[dp].kind.Dir?
      ensures off == Find(t[dp].slots, name, 0)
      ensures i == if off < |t[dp].slots| then t[dp].slots[off].inum else 0
    {
      off := 0;
      while off < |t[dp].slots|
        invariant off <= |t[dp].slots| && Find(t[dp].slots, name, 0) == Find(t[dp].slots, name, off)
      {
        var de := t[dp].slots[off];
        if de.inum != 0 && name == de.name {
          return de.inum, off;
        }
        off := off + 1;
      }
      i := 0;
    }

    /** Enters name for inode i in the first empty slot, if name is not there and the write succeeds. */
    method DirLink(dp: nat, name: Name, i: nat, room: bool) returns (ok: bool, ghost k: nat)
      requires dp in t && t[dp].kind.Dir?
      modifies this`t
      ensures ok <==> room && Find(old(t)[dp].slots, name, 0) == |old(t)[dp].slots|
      ensures k == FirstEmpty(old(t)[dp].slots, 0) && t == if ok then Put(old(t), dp, k, Entry(i, name)) else old(t)
    {
      k := FirstEmpty(t[dp].slots, 0);
      var found, at := DirLookup(dp, name);
      if at < |t[dp].slots| {
        return false, k;
      }
      var off := 0;
      while off < |t[dp].slots|
        invariant off <= |t[dp].slots| && k == FirstEmpty(t[dp].slots, off)
      {
        if t[dp].slots[off].inum == 0 {
          break;
        }
        off := off + 1;
      }
      if !room {
        return false, k;
      }
      t := Put(t, dp, off, Entry(i, name));
      ok := true;
    }

    /** iput: an inode that is neither linked nor used any more is freed. */
    method IPut(i: nat, last: bool)
      requires i in t
      modifies this`t
      ensures t == if last && old(t)[i].nlink == 0 then old(t)[i := NONODE] else old(t)
      ensures old(Valid()) ==> Valid()
    {
      if last && t[i].nlink == 0 {
        if Inv(t, home) {
          SwapUnlinked(t, home, i, NONODE);
        }
        t := t[i := t[i].(slots := [])];
        t := t[i := t[i].(kind := NoKind)];
      }
    }

    /** The lowest free inode, now of the given kind, or 0. */
    method IAlloc(kind: Kind) returns (i: nat)
      requires Valid() && kind != NoKind
      modifies this`t
      ensures Valid()
      ensures i == 0 ==> t == old(t) && !HasRoom(t)
      ensures i != 0 ==> LowestFree(old(t), i) && t == old(t)[i := Node(kind, 0, [])]
    {
      i := 1;
      while i < n
        invariant 1 <= i && (i <= n || n <= 1) && forall j :: 1 <= j < i && j in t ==> t[j].kind != NoKind
      {
        if t[i].kind == NoKind {
          assert NodeOk(t, i);
          SwapUnlinked(t, home, i, Node(kind, 0, []));
          t := t[i := Node(kind, 0, [])];
          return;
        }
        i := i + 1;
      }
      i := 0;
    }

    /** create's "." and ".." entries; the count of the new directory is 1 already. */
    method MakeDots(i: nat, dp: nat, room1: bool, room2: bool) returns (ok: bool)
      requires i != 0 && i in t && t[i] == Node(Dir, 1, [])
      modifies this`t
      ensures i in t && t == old(t)[i := t[i]] && t[i].nlink == 1 && (ok <==> room1 && room2)
      ensures ok ==> t[i] == Node(Dir, 1, DotEntries(i, dp))
    {
      ghost var k;
      ok, k := DirLink(i, DOT, i, room1);
      if ok {
        assert t[i].slots == [Entry(i, DOT)];
        DotDotIsNew(i);
        ok, k := DirLink(i, DOTDOT, dp, room2);
      }
    }

    /** create, with what ialloc and each of the directory writes meets; i is the new or existing inode, or 0. An inode
        that is there already is given back only to open a file or a device. */
    method Create(dp: nat, name: Name, kind: Kind, room1: bool, room2: bool, room3: bool) returns (i: nat)
      requires Valid() && Linked(t, dp) && kind != NoKind
      modifies this
      ensures Valid()
      ensures i == 0 ==> t == old(t)
      ensures var k, s := Find(old(t)[dp].slots, name, 0), old(t)[dp].slots;
              if k < |s| then
                && t == old(t) && s[k].inum in t
                && i == if kind.File? && (t[s[k].inum].kind.File? || t[s[k].inum].kind.Device?) then s[k].inum else 0
              else
                && (i != 0 <==> HasRoom(old(t)) && room3 && (kind.Dir? ==> room1 && room2))
                && (i != 0 ==> LowestFree(old(t), i) && t == Created(old(t), dp, name, kind, i))
    {
      var found, at := DirLookup(dp, name);
      if at < |t[dp].slots| {
        assert DirOk(t, dp);
        if kind.File? && (t[found].kind.File? || t[found].kind.Device?) {
          return found;
        }
        return 0;
      }
      i := CreateNew(dp, name, kind, room1, room2, room3);
    }

    /** create when the name is not there yet. */
    method CreateNew(dp: nat, name: Name, kind: Kind, room1: bool, room2: bool, room3: bool) returns (i: nat)
      requires Valid() && Linked(t, dp) && kind != NoKind && Find(t[dp].slots, name, 0) == |t[dp].slots|
      modifies this
      ensures Valid()
      ensures i == 0 ==> t == old(t)
      ensures i != 0 <==> HasRoom(old(t)) && room3 && (kind.Dir? ==> room1 && room2)
      ensures i != 0 ==> LowestFree(old(t), i) && t == Created(old(t), dp, name, kind, i)
    {
      ghost var t0 := t;
      FoundNothing(t, dp, name);
      i := IAlloc(kind);
      if i == 0 {
        return;
      }
      t := t[i := t[i].(nlink := 1)];
      ghost var t1 := t;
      assert t1 == t0[i := Node(kind, 1, [])];
      var ok := Enter(i, dp, name, kind, room1, room2, room3, t0);
      if !ok {
        t := t[i := t[i].(nlink := 0)];
        IPut(i, true);
        assert t == t0;
        return 0;
      }
      CreatedKeeps(t0, home, dp, name, kind, i);
      home := if kind == Dir then home[i := (dp, FirstEmpty(t0[dp].slots, 0))] else home;
    }

    /** create's directory entries for the new inode i. */
    method Enter(i: nat, dp: nat, name: Name, kind: Kind, room1: bool, room2: bool, room3: bool, ghost t0: Tree)
      returns (ok: bool)
      requires Linked(t0, dp) && i != 0 && i in t0 && i != dp && t == t0[i := Node(kind, 1, [])]
      requires Find(t0[dp].slots, name, 0) == |t0[dp].slots|
      modifies this`t
      ensures ok <==> room3 && (kind.Dir? ==> room1 && room2)
      ensures ok ==> t == Created(t0, dp, name, kind, i)
      ensures !ok ==> i in t && t == t0[i := t[i]]
    {
      ok := true;
      if kind == Dir {
        ok := MakeDots(i, dp, room1, room2);
      }
      if !ok {
        return;
      }
      assert t[dp] == t0[dp];
      ghost var k;
      ok, k := DirLink(dp, name, i, room3);
      if !ok {
        return;
      }
      if kind == Dir {
        t := t[dp := t[dp].(nlink := t[dp].nlink + 1)];
      }
      assert t == Created(t0, dp, name, kind, i);
    }

    /** link: the count goes up first and comes down again when the entry cannot be made. */
    method Link(i: nat, dp: nat, name: Name, room: bool) returns (ok: bool)
      requires Valid() && i in t && t[i].kind != NoKind && Linked(t, dp)
      modifies this`t
      ensures Valid()
      ensures ok <==> room && !old(t)[i].kind.Dir? && Find(old(t)[dp].slots, name, 0) == |old(t)[dp].slots|
      ensures t == if ok then AddLinks(Put(old(t), dp, FirstEmpty(old(t)[dp].slots, 0), Entry(i, name)), i, 1)
                else old(t)
    {
      if t[i].kind.Dir? {
        return false;
      }
      ghost var t0 := t;
      t := t[i := t[i].(nlink := t[i].nlink + 1)];
      ghost var k;
      ok, k := DirLink(dp, name, i, room);
      if ok {
        FoundNothing(t0, dp, name);
        LinkKeeps(t0, home, dp, k, i, name);
        assert t == AddLinks(Put(t0, dp, k, Entry(i, name)), i, 1);
      } else {
        t := t[i := t[i].(nlink := t[i].nlink - 1)];
        assert t == t0;
      }
    }

    method IsDirEmpty(i: nat) returns (r: bool)
      requires i in t && |t[i].slots| >= 2
      ensures r <==> IsEmpty(t[i].slots)
    {
      var off := 2;
      while off < |t[i].slots|
        invariant 2 <= off <= |t[i].slots|
        invariant forall k {:trigger t[i].slots[k]} :: 2 <= k < off ==> t[i].slots[k].inum == 0
      {
        if t[i].slots[off].inum != 0 {
          return false;
        }
        off := off + 1;
      }
      r := true;
    }

    /** unlink, up to the last iput; i is the inode whose entry is gone, or 0. "unlink: nlink < 1" cannot happen. */
    method Unlink(dp: nat, name: Name) returns (i: nat)
      requires Valid() && Linked(t, dp)
      modifies this`t
      ensures Valid()
      ensures var k, s := Find(old(t)[dp].slots, name, 0), old(t)[dp].slots;
              && (i == 0 <==> name == DOT || name == DOTDOT || k == |s| ||
                              (s[k].inum in old(t) && old(t)[s[k].inum].kind.Dir? && !IsEmpty(old(t)[s[k].inum].slots)))
              && (i == 0 ==> t == old(t))
              && (i != 0 ==> k < |s| && i == s[k].inum && i in old(t) && old(t)[i].nlink > 0 &&
                             if old(t)[i].kind.Dir?
                             then i != dp && old(t)[dp].nlink > 0 && t == Detached(old(t), dp, k, i)
                             else t == AddLinks(Put(old(t), dp, k, EMPTY), i, -1))
    {
      if name == DOT || name == DOTDOT {
        return 0;
      }
      var off;
      i, off := DirLookup(dp, name);
      if i == 0 {
        return 0;
      }
      EntryPlace(t, home, dp, off);
      if t[i].kind.Dir? {
        DirEntryTarget(t, home, dp, off);
        var empty := IsDirEmpty(i);
        if !empty {
          return 0;
        }
      }
      ghost var t0 := t;
      var isDir := t[i].kind.Dir?;
      if isDir {
        DetachKeeps(t, home, dp, off);
      } else {
        UnlinkFileKeeps(t, home, dp, off);
      }
      assert t[i].nlink >= 1;
      t := Put(t, dp, off, EMPTY);
      if isDir {
        t := t[dp := t[dp].(nlink := t[dp].nlink - 1)];
      }
      t := t[i := t[i].(nlink := t[i].nlink - 1)];
      assert t == if isDir then Detached(t0, dp, off, i) else AddLinks(Put(t0, dp, off, EMPTY), i, -1);
    }
  }

  predicate HasRoom(t: Tree) {
    exists j :: j in t && t[j].kind == NoKind
  }

  predicate LowestFree(t: Tree, i: nat) {
    i in t && t[i] == NONODE && forall j :: 1 <= j < i && j in t ==> t[j].kind != NoKind
  }

  // ---------- paths ----------

  function Clip(s: string): Name {
    if |s| <= DIRSIZ then s else s[..DIRSIZ]
  }

  /** The length of the part of s before the first slash. */
  function ElemLength(s: string): (n: nat)
    ensures n <= |s| && (n < |s| ==> s[n] == '/')
    ensures forall k :: 0 <= k < n ==> s[k] != '/'
  {
    if s == [] || s[0] == '/' then 0 else 1 + ElemLength(s[1..])
  }

  /** The names that a path consists of: the pieces between slashes, cut off at DIRSIZ bytes. */
  function Elements(path: string): seq<Name> {
    if path == [] then []
    else if path[0] == '/' then Elements(path[1..])
    else
      var n := ElemLength(path);
      assert n > 0;
      [Clip(path[..n])] + Elements(path[n..])
  }

  lemma {:induction false} SlashesDoNotCount(path: string, p: nat, q: nat)
    requires p <= q <= |path| && forall j :: p <= j < q ==> path[j] == '/'
    ensures Elements(path[p..]) == Elements(path[q..])
    decreases q - p
  {
    if p < q {
      assert path[p..][1..] == path[p + 1..];
      SlashesDoNotCount(path, p + 1, q);
    }
  }

  lemma {:induction false} LengthIs(s: string, n: nat)
    requires n <= |s| && (n < |s| ==> s[n] == '/') && forall k :: 0 <= k < n ==> s[k] != '/'
    ensures ElemLength(s) == n
  {
    if n > 0 {
      LengthIs(s[1..], n - 1);
    }
  }

  /** while(*path == '/') path++; */
  method SkipSlashes(path: string, p: nat) returns (q: nat)
    requires p <= |path|
    ensures p <= q <= |path| && (q < |path| ==> path[q] != '/')
    ensures Elements(path[q..]) == Elements(path[p..])
  {
    q := p;
    while q < |path| && path[q] == '/'
      invariant p <= q <= |path| && forall j :: p <= j < q ==> path[j] == '/'
    {
      q := q + 1;
    }
    SlashesDoNotCount(path, p, q);
  }

  lemma FirstElement(path: string, s: nat, p: nat)
    requires s < p <= |path| && (p < |path| ==> path[p] == '/') && forall j :: s <= j < p ==> path[j] != '/'
    ensures Elements(path[s..]) == [Clip(path[s..p])] + Elements(path[p..])
  {
    LengthIs(path[s..], p - s);
    assert path[s..][..p - s] == path[s..p] && path[s..][p - s..] == path[p..];
  }

  /** Takes the first name off a path. */
  method SkipElem(path: string) returns (r: Option<(string, Name)>)
    ensures r.None? <==> Elements(path) == []
    ensures r.Some? ==> Elements(path) == [r.value.1] + Elements(r.value.0) && |r.value.0| < |path|
    ensures r.Some? && r.value.0 != [] ==> r.value.0[0] != '/'
  {
    assert path[0..] == path;
    var s := SkipSlashes(path, 0);
    if s == |path| {
      return None;
    }
    var p := s;
    while p < |path| && path[p] != '/'
      invariant s <= p <= |path| && forall j :: s <= j < p ==> path[j] != '/'
    {
      p := p + 1;
    }
    FirstElement(path, s, p);
    var name := CopyName(path[s..p]);
    var q := SkipSlashes(path, p);
    return Some((path[q..], name));
  }

  /** The memmove of an element into a buffer of DIRSIZ bytes. */
  method CopyName(elem: string) returns (name: Name)
    ensures name == Clip(elem)
  {
    if |elem| >= DIRSIZ {
      name := elem[..DIRSIZ];
    } else {
      name := elem;
    }
  }

  /** Following names from inode i, through directories only. */
  function Walk(t: Tree, i: nat, names: seq<Name>): Option<nat>
    decreases |names|
  {
    if names == [] then Some(i)
    else if i !in t || !t[i].kind.Dir? then None
    else
      var k := Find(t[i].slots, names[0], 0);
      if k == |t[i].slots| then None else Walk(t, t[i].slots[k].inum, names[1..])
  }

  /** A path that begins with a slash starts at the root. */
  predicate Absolute(path: string) {
    path != "" && path[0] == '/'
  }

  /** namei, or nameiparent with the last name of the path. */
  method NameX(fs: Fs, cwd: nat, path: string, parent: bool) returns (r: Option<nat>, name: Name)
    requires ROOTINO in fs.t && cwd in fs.t && forall i, k {:trigger fs.t[i].slots[k]} ::
               i in fs.t && fs.t[i].kind.Dir? && 0 <= k < |fs.t[i].slots| && fs.t[i].slots[k].inum != 0 ==>
                   fs.t[i].slots[k].inum in fs.t
    ensures !parent ==> r == Walk(fs.t, if Absolute(path) then ROOTINO else cwd, Elements(path))
    ensures parent && Elements(path) == [] ==> r == None
    ensures parent && Elements(path) != [] ==>
              var n := |Elements(path)| - 1;
              var w := Walk(fs.t, if Absolute(path) then ROOTINO else cwd, Elements(path)[..n]);
              && r == (if w.Some? && w.value in fs.t && fs.t[w.value].kind.Dir? then w else None)
              && (r.Some? ==> name == Elements(path)[n])
  {
    var ip, rest := cwd, path;
    if path != "" && path[0] == '/' {
      ip := ROOTINO;
    }
    ghost var start := ip;
    name := "";
    ghost var e := Elements(path);
    while true
      invariant ip in fs.t
      invariant |Elements(rest)| <= |e| && e[|e| - |Elements(rest)|..] == Elements(rest)
      invariant Walk(fs.t, start, e) == Walk(fs.t, ip, Elements(rest))
      invariant parent && Elements(rest) != [] ==>
                  Walk(fs.t, start, e[..|e| - 1]) == Walk(fs.t, ip, Elements(rest)[..|Elements(rest)| - 1])
      invariant parent && e != [] ==> Elements(rest) != []
      decreases |rest|
    {
      ghost var now := Elements(rest);
      var next := SkipElem(rest);
      if next.None? {
        break;
      }
      rest, name := next.value.0, next.value.1;
      assert now == [name] + Elements(rest);
      if fs.t[ip].kind != Dir {
        assert parent ==> now[..|now| - 1] == [] || now[..|now| - 1][0] == name;
        return None, name;
      }
      if parent && rest == [] {
        assert now[..|now| - 1] == [];
        return Some(ip), name;
      }
      var i, off := fs.DirLookup(ip, name);
      if i == 0 {
        assert parent ==> Elements(rest) != [] && now[..|now| - 1][0] == name;
        return None, name;
      }
      assert now[1..] == Elements(rest);
      assert parent ==> Elements(rest) != [] && now[..|now| - 1][1..] == Elements(rest)[..|Elements(rest)| - 1];
      ip := i;
    }
    if parent {
      return None, name;
    }
    return Some(ip), name;
  }

  lemma DotDotIsNew(i: nat)
    ensures Find([Entry(i, DOT)], DOTDOT, 0) == 1 && FirstEmpty([Entry(i, DOT)], 0) == if i == 0 then 0 else 1
  {
    assert Find([Entry(i, DOT)], DOTDOT, 1) == 1;
  }

  /** The tree with a new inode i of the given kind, with one link, called name in d. */
  function Created(t: Tree, d: nat, name: Name, kind: Kind, i: nat): Tree
    requires d in t && i in t && i != d
  {
    var k := FirstEmpty(t[d].slots, 0);
    if kind.Dir? then Attached(t[i := Node(Dir, 0, DotEntries(i, d))], d, k, i, name)
    else AddLinks(Put(t[i := Node(kind, 0, [])], d, k, Entry(i, name)), i, 1)
  }

  lemma CreatedKeeps(t: Tree, home: map<nat, (nat, nat)>, d: nat, name: Name, kind: Kind, i: nat)
    requires Inv(t, home) && d in t && CanPut(t, d, FirstEmpty(t[d].slots, 0), name) && kind != NoKind && i in t
    requires t[i] == NONODE
    ensures i != d
    ensures Inv(Created(t, d, name, kind, i), if kind.Dir? then home[i := (d, FirstEmpty(t[d].slots, 0))] else home)
  {
    if kind.Dir? {
      SwapUnlinked(t, home, i, Node(Dir, 0, DotEntries(i, d)));
      AttachKeeps(t[i := Node(Dir, 0, DotEntries(i, d))], home, d, FirstEmpty(t[d].slots, 0), i, name);
    } else {
      SwapUnlinked(t, home, i, Node(kind, 0, []));
      LinkKeeps(t[i := Node(kind, 0, [])], home, d, FirstEmpty(t[d].slots, 0), i, name);
    }
  }

  lemma FoundNothing(t: Tree, d: nat, name: Name)
    requires Linked(t, d) && Find(t[d].slots, name, 0) == |t[d].slots|
    ensures CanPut(t, d, FirstEmpty(t[d].slots, 0), name)
  {
    forall j | 0 <= j < |t[d].slots| && t[d].slots[j].inum != 0
      ensures t[d].slots[j].name != name
    {
      FindMisses(t[d].slots, name, 0, j);
    }
  }

  /** An entry that is neither "." nor ".." stands behind these and names an inode in use. */
  lemma EntryPlace(t: Tree, home: map<nat, (nat, nat)>, d: nat, k: nat)
    requires Inv(t, home) && Linked(t, d) && k < |t[d].slots| && t[d].slots[k].inum != 0 && t[d].slots[k].name != DOT
    requires t[d].slots[k].name != DOTDOT
    ensures k >= 2 && t[d].slots[k].inum in t && (!t[t[d].slots[k].inum].kind.Dir? ==> FileEntry(t, d, k))
  {
    assert DirOk(t, d);
  }

  lemma DirEntryTarget(t: Tree, home: map<nat, (nat, nat)>, d: nat, k: nat)
    requires Inv(t, home) && Linked(t, d) && 2 <= k < |t[d].slots| && t[d].slots[k].inum in t
    requires t[t[d].slots[k].inum].kind.Dir?
    requires t[d].slots[k].inum != 0 && t[d].slots[k].name != DOT
    ensures var i := t[d].slots[k].inum;
            Linked(t, i) && |t[i].slots| >= 2 && (IsEmpty(t[i].slots) ==> EmptyDirEntry(t, d, k))
  {
    var i := t[d].slots[k].inum;
    assert NodeOk(t, i) && DirOk(t, i);
    assert LinksTo(t, d, k, i);
    assert (d, k) in Refs(t, i);
  }
}
