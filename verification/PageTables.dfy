/** Physical pages, and what a page allocator and a set of user page tables keep true of them. */
module PageTables {
  import opened Sv39

  const ENTRIES := 512
  const MAXVPN := 0x400_0000      // MAXVA / PGSIZE
  const VTRAMPOLINE := MAXVPN - 1
  const VTRAPFRAME := MAXVPN - 2

  /** A physical page is on the free list, or a page-table page, or holds bytes. */
  datatype Page = Run(next: nat) | Table(ptes: seq<Pte>) | Data(bytes: seq<nat>)

  /** Physical memory by page number; page number 0 is never allocated. */
  type Memory = map<nat, Page>

  /** The page-table pages of the table rooted at page root: the top one, the one that entry a of
      the top one points to, and the one that maps the 512 pages from page number 512 * h on. */
  datatype Dir = Top(root: nat) | Mid(root: nat, a: nat) | Low(root: nat, h: nat)

  datatype Role = Free | Interior(dir: Dir) | User(root: nat, vpn: nat) | Held

  datatype Hole = NoHole | Dangling(dir: Dir)

  /** What every page is for. flat is the abstract value of each table: virtual page number to
      entry. hole names a page-table page that has been freed while its parent still points to it. */
  datatype Book = Book(free: seq<nat>, dirs: map<Dir, nat>,
      flat: map<nat, map<nat, Pte>>, role: map<nat, Role>, hole: Hole)

  predicate Special(vpn: nat) {
    vpn == VTRAMPOLINE || vpn == VTRAPFRAME
  }

  function Child(k: Dir, i: nat): Dir
    requires !k.Low?
  {
    if k.Top? then Mid(k.root, i) else Low(k.root, k.a * ENTRIES + i)
  }

  function ZeroTable(): (s: seq<Pte>)
    ensures |s| == ENTRIES && forall i :: 0 <= i < ENTRIES ==> s[i] == ZERO
  {
    seq(ENTRIES, _ => ZERO)
  }

  // ---------- the invariant ----------

  function Nth(l: seq<nat>, i: nat): nat {
    if i < |l| then l[i] else 0
  }

  ghost predicate FreeAt(m: Memory, b: Book, i: nat) {
    && i < |b.free| && b.free[i] in b.role && b.free[i] in m
    && b.role[b.free[i]] == Free && m[b.free[i]] == Run(Nth(b.free, i + 1))
  }

  /** The free list threaded through memory from head lists exactly the free pages, each once. */
  ghost predicate FreeList(m: Memory, head: nat, b: Book) {
    && m.Keys == b.role.Keys && 0 !in m
    && head == Nth(b.free, 0)
    && (forall i {:trigger FreeAt(m, b, i)} :: 0 <= i < |b.free| ==> FreeAt(m, b, i))
    && (forall i, j :: 0 <= i < j < |b.free| ==> b.free[i] != b.free[j])
    && (forall p :: p in b.role && b.role[p] == Free ==> p in b.free)
  }

  ghost predicate EntryOk(b: Book, k: Dir, i: nat, e: Pte) {
    if k.Low? then
      var vpn := k.h * ENTRIES + i;
      && (e.v <==> k.root in b.flat && vpn in b.flat[k.root])
      && (e.v ==> IsLeaf(e.flags) && e == b.flat[k.root][vpn])
    else
      b.hole == Dangling(Child(k, i)) ||
      (&& (e.v <==> Child(k, i) in b.dirs)
       && (e.v ==> !IsLeaf(e.flags) && e.ppn == b.dirs[Child(k, i)]))
  }

  ghost predicate DirOk(m: Memory, b: Book, k: Dir) {
    && k in b.dirs && b.dirs[k] in m && m[b.dirs[k]].Table? && |m[b.dirs[k]].ptes| == ENTRIES
    && b.dirs[k] in b.role && b.role[b.dirs[k]] == Interior(k)
    && k.root in b.flat
    && (k.Top? ==> b.dirs[k] == k.root)
    && (k.Mid? ==> k.a < ENTRIES && Top(k.root) in b.dirs)
    && (k.Low? ==> k.h < ENTRIES * ENTRIES && Mid(k.root, k.h / ENTRIES) in b.dirs)
    && (forall i {:trigger EntryOk(b, k, i, m[b.dirs[k]].ptes[i])} :: 0 <= i < ENTRIES ==>
           EntryOk(b, k, i, m[b.dirs[k]].ptes[i]))
  }

  ghost predicate UserPage(m: Memory, b: Book, r: nat, vpn: nat, p: nat) {
    p in b.role && b.role[p] == User(r, vpn) && p in m && m[p].Data? && |m[p].bytes| == PGSIZE
  }

  ghost predicate LeafOk(m: Memory, b: Book, r: nat, vpn: nat) {
    && r in b.flat && vpn in b.flat[r] && vpn < MAXVPN && Low(r, vpn / ENTRIES) in b.dirs
    && (Special(vpn) || UserPage(m, b, r, vpn, b.flat[r][vpn].ppn))
  }

  ghost predicate RoleOk(b: Book, p: nat) {
    p in b.role &&
    match b.role[p]
    case Free => true
    case Interior(k) => k in b.dirs && b.dirs[k] == p
    case User(r, vpn) => !Special(vpn) && r in b.flat && vpn in b.flat[r] && b.flat[r][vpn].ppn == p
    case Held => true
  }

  /** Every page has one role and the structures in memory agree with it: the free list, the
      page-table pages of the live tables, the pages they map, and the rest, held by the kernel. */
  ghost predicate Inv(m: Memory, head: nat, b: Book) {
    && FreeList(m, head, b)
    && (forall k {:trigger DirOk(m, b, k)} :: k in b.dirs ==> DirOk(m, b, k))
    && (forall r, vpn {:trigger LeafOk(m, b, r, vpn)} :: r in b.flat && vpn in b.flat[r] ==> LeafOk(m, b, r, vpn))
    && (forall p {:trigger RoleOk(b, p)} :: p in b.role ==> RoleOk(b, p))
    && (forall r :: r in b.flat ==> Top(r) in b.dirs)
  }

  // ---------- steps that keep it ----------

  function Popped(b: Book): Book
    requires b.free != []
  {
    b.(free := b.free[1..], role := b.role[b.free[0] := Held])
  }

  function Pushed(b: Book, p: nat): Book {
    b.(free := [p] + b.free, role := b.role[p := Free])
  }

  lemma PoppedList(m: Memory, head: nat, b: Book, x: Page)
    requires FreeList(m, head, b) && b.free != []
    ensures head != 0 && head in m && head in b.role && m[head].Run?
    ensures FreeList(m[head := x], m[head].next, Popped(b))
  {
    assert FreeAt(m, b, 0);
    var m', b' := m[head := x], Popped(b);
    forall i | 0 <= i < |b'.free|
      ensures FreeAt(m', b', i)
    {
      assert FreeAt(m, b, i + 1);
      assert b'.free[i] == b.free[i + 1];
    }
    forall p | p in b'.role && b'.role[p] == Free
      ensures p in b'.free
    {
      assert p in b.free && p != b.free[0];
    }
  }

  lemma PushedList(m: Memory, head: nat, b: Book, p: nat)
    requires FreeList(m, head, b) && p in m && b.role[p] != Free
    ensures FreeList(m[p := Run(head)], p, Pushed(b, p))
  {
    var m', b' := m[p := Run(head)], Pushed(b, p);
    forall i | 0 <= i < |b'.free|
      ensures FreeAt(m', b', i)
    {
      if i > 0 {
        assert FreeAt(m, b, i - 1);
        assert b'.free[i] == b.free[i - 1];
      }
    }
    forall i, j | 0 <= i < j < |b'.free|
      ensures b'.free[i] != b'.free[j]
    {
      assert FreeAt(m, b, j - 1);
    }
  }

  /** Pages other than p keep their meaning when p was held, and is held or free, before and after. */
  ghost predicate Loose(b: Book, p: nat) {
    p in b.role && (b.role[p] == Held || b.role[p] == Free)
  }

  lemma DirKept(m: Memory, b: Book, m': Memory, b': Book, k: Dir)
    requires DirOk(m, b, k) && b'.dirs == b.dirs && b'.flat == b.flat && b'.hole == b.hole
    requires b.dirs[k] in m' && m'[b.dirs[k]] == m[b.dirs[k]]
    requires b.dirs[k] in b'.role && b'.role[b.dirs[k]] == b.role[b.dirs[k]]
    ensures DirOk(m', b', k)
  {
    forall i | 0 <= i < ENTRIES
      ensures EntryOk(b', k, i, m'[b'.dirs[k]].ptes[i])
    {
      assert EntryOk(b, k, i, m[b.dirs[k]].ptes[i]);
    }
  }

  lemma LooseChange(m: Memory, head: nat, b: Book, m': Memory, head': nat, b': Book, p: nat)
    requires Inv(m, head, b) && FreeList(m', head', b') && Loose(b, p) && Loose(b', p)
    requires m'.Keys == m.Keys && forall q :: q in m && q != p ==> m'[q] == m[q]
    requires b' == b.(free := b'.free, role := b'.role) && b'.role == b.role[p := b'.role[p]]
    ensures Inv(m', head', b')
  {
    forall k | k in b'.dirs
      ensures DirOk(m', b', k)
    {
      assert DirOk(m, b, k);
      DirKept(m, b, m', b', k);
    }
    forall r, vpn | r in b'.flat && vpn in b'.flat[r]
      ensures LeafOk(m', b', r, vpn)
    {
      assert LeafOk(m, b, r, vpn);
    }
    forall q | q in b'.role
      ensures RoleOk(b', q)
    {
      assert RoleOk(b, q);
    }
  }

  /** The list does not mention pages that are not free. */
  lemma ListKept(m: Memory, head: nat, b: Book, m': Memory, b': Book)
    requires FreeList(m, head, b) && m'.Keys == m.Keys == b'.role.Keys && b'.free == b.free
    requires forall p :: p in b.role && (b.role[p] == Free || b'.role[p] == Free) ==>
               b'.role[p] == b.role[p] && m'[p] == m[p]
    ensures FreeList(m', head, b')
  {
    forall i | 0 <= i < |b.free|
      ensures FreeAt(m', b', i)
    {
      assert FreeAt(m, b, i);
    }
  }

  // ---------- tables ----------

  function WithTop(b: Book, p: nat): Book {
    b.(dirs := b.dirs[Top(p) := p], flat := b.flat[p := map[]], role := b.role[p := Interior(Top(p))])
  }

  lemma NewTop(m: Memory, head: nat, b: Book, p: nat)
    requires Inv(m, head, b) && p in b.role && b.role[p] == Held && m[p] == Table(ZeroTable()) && b.hole == NoHole
    ensures p !in b.flat && Inv(m, head, WithTop(b, p))
  {
    assert Top(p) !in b.dirs by {
      assert Top(p) in b.dirs ==> DirOk(m, b, Top(p));
    }
    var b' := WithTop(b, p);
    ListKept(m, head, b, m, b');
    forall k | k in b'.dirs
      ensures DirOk(m, b', k)
    {
      if k != Top(p) {
        assert DirOk(m, b, k);
      }
      forall i | 0 <= i < ENTRIES
        ensures EntryOk(b', k, i, m[b'.dirs[k]].ptes[i])
      {
        if k == Top(p) {
          assert Mid(p, i) in b.dirs ==> DirOk(m, b, Mid(p, i));
        } else {
          assert EntryOk(b, k, i, m[b.dirs[k]].ptes[i]);
        }
      }
    }
    forall r, vpn | r in b'.flat && vpn in b'.flat[r]
      ensures LeafOk(m, b', r, vpn)
    {
      assert LeafOk(m, b, r, vpn);
    }
    forall q | q in b'.role
      ensures RoleOk(b', q)
    {
      assert RoleOk(b, q);
    }
  }

  function WithChild(b: Book, c: Dir, p: nat): Book {
    b.(dirs := b.dirs[c := p], role := b.role[p := Interior(c)])
  }

  function SetEntry(m: Memory, p: nat, i: nat, e: Pte): Memory
    requires p in m && m[p].Table? && i < |m[p].ptes|
  {
    m[p := Table(m[p].ptes[i := e])]
  }

  lemma NewChild(m: Memory, head: nat, b: Book, k: Dir, i: nat, p: nat)
    requires Inv(m, head, b) && b.hole == NoHole && k in b.dirs && !k.Low? && i < ENTRIES
    requires p in b.role && b.role[p] == Held && m[p] == Table(ZeroTable())
    requires DirOk(m, b, k) && !m[b.dirs[k]].ptes[i].v
    ensures Child(k, i) !in b.dirs
    ensures Inv(SetEntry(m, b.dirs[k], i, Pte(true, NOFLAGS, p)), head, WithChild(b, Child(k, i), p))
  {
    var c, q := Child(k, i), b.dirs[k];
    assert EntryOk(b, k, i, m[q].ptes[i]);
    var m', b' := SetEntry(m, q, i, Pte(true, NOFLAGS, p)), WithChild(b, c, p);
    ListKept(m, head, b, m', b');
    forall l | l in b'.dirs
      ensures DirOk(m', b', l)
    {
      if l == c {
        NewDirOk(m, head, b, k, i, p);
      } else {
        OldDirOk(m, head, b, k, i, p, l);
      }
    }
    forall r, vpn | r in b'.flat && vpn in b'.flat[r]
      ensures LeafOk(m', b', r, vpn)
    {
      assert LeafOk(m, b, r, vpn);
    }
    forall x | x in b'.role
      ensures RoleOk(b', x)
    {
      assert RoleOk(b, x);
    }
  }

  lemma NewDirOk(m: Memory, head: nat, b: Book, k: Dir, i: nat, p: nat)
    requires Inv(m, head, b) && b.hole == NoHole && k in b.dirs && !k.Low? && i < ENTRIES
    requires p in b.role && b.role[p] == Held && m[p] == Table(ZeroTable())
    requires DirOk(m, b, k) && Child(k, i) !in b.dirs
    ensures DirOk(SetEntry(m, b.dirs[k], i, Pte(true, NOFLAGS, p)), WithChild(b, Child(k, i), p), Child(k, i))
  {
    var c := Child(k, i);
    var b' := WithChild(b, c, p);
    forall j | 0 <= j < ENTRIES
      ensures EntryOk(b', c, j, ZERO)
    {
      if c.Low? {
        var vpn := c.h * ENTRIES + j;
        assert vpn in b.flat[c.root] ==> LeafOk(m, b, c.root, vpn);
      } else {
        assert Child(c, j) in b.dirs ==> DirOk(m, b, Child(c, j));
      }
    }
  }

  lemma OldDirOk(m: Memory, head: nat, b: Book, k: Dir, i: nat, p: nat, l: Dir)
    requires Inv(m, head, b) && b.hole == NoHole && k in b.dirs && !k.Low? && i < ENTRIES
    requires p in b.role && b.role[p] == Held && m[p] == Table(ZeroTable())
    requires DirOk(m, b, k) && Child(k, i) !in b.dirs && l in b.dirs
    ensures DirOk(SetEntry(m, b.dirs[k], i, Pte(true, NOFLAGS, p)), WithChild(b, Child(k, i), p), l)
  {
    var q := b.dirs[k];
    var m', b' := SetEntry(m, q, i, Pte(true, NOFLAGS, p)), WithChild(b, Child(k, i), p);
    assert DirOk(m, b, l);
    forall j | 0 <= j < ENTRIES
      ensures EntryOk(b', l, j, m'[b'.dirs[l]].ptes[j])
    {
      assert EntryOk(b, l, j, m[b.dirs[l]].ptes[j]);
      if !l.Low? && Child(l, j) == Child(k, i) {
        ChildInjective(m, b, k, i, l, j);
      }
    }
  }

  lemma ChildInjective(m: Memory, b: Book, k: Dir, i: nat, l: Dir, j: nat)
    requires DirOk(m, b, k) && DirOk(m, b, l) && !k.Low? && !l.Low? && i < ENTRIES && j < ENTRIES
    requires Child(k, i) == Child(l, j)
    ensures k == l && i == j
  {
  }

  // ---------- leaves ----------

  function WithLeaf(b: Book, r: nat, vpn: nat, e: Pte): Book
    requires r in b.flat
  {
    var f: map<nat, Pte> := b.flat[r];
    b.(flat := b.flat[r := f[vpn := e]], role := if Special(vpn) then b.role else b.role[e.ppn := User(r, vpn)])
  }

  function WithoutLeaf(b: Book, r: nat, vpn: nat, role: Role): Book
    requires r in b.flat && vpn in b.flat[r]
  {
    var f: map<nat, Pte> := b.flat[r];
    b.(flat := b.flat[r := f - {vpn}], role := if Special(vpn) then b.role else b.role[b.flat[r][vpn].ppn := role])
  }

  /** Entry i of the lowest page h of table r is free for e, whose page is held (or is special). */
  ghost predicate CanSet(m: Memory, b: Book, r: nat, h: nat, i: nat, e: Pte) {
    && Low(r, h) in b.dirs && DirOk(m, b, Low(r, h)) && i < ENTRIES && h * ENTRIES + i < MAXVPN
    && !m[b.dirs[Low(r, h)]].ptes[i].v && e.v && IsLeaf(e.flags)
    && (Special(h * ENTRIES + i) ||
        (e.ppn in b.role && b.role[e.ppn] == Held && e.ppn in m && m[e.ppn].Data? && |m[e.ppn].bytes| == PGSIZE))
  }

  lemma SetLeafDir(m: Memory, head: nat, b: Book, r: nat, h: nat, i: nat, e: Pte, k: Dir)
    requires Inv(m, head, b) && CanSet(m, b, r, h, i, e) && k in b.dirs
    ensures DirOk(SetEntry(m, b.dirs[Low(r, h)], i, e), WithLeaf(b, r, h * ENTRIES + i, e), k)
  {
    var vpn, q := h * ENTRIES + i, b.dirs[Low(r, h)];
    var m', b' := SetEntry(m, q, i, e), WithLeaf(b, r, vpn, e);
    assert DirOk(m, b, k);
    forall j | 0 <= j < ENTRIES
      ensures EntryOk(b', k, j, m'[b'.dirs[k]].ptes[j])
    {
      assert EntryOk(b, k, j, m[b.dirs[k]].ptes[j]);
    }
  }

  lemma SetLeafLeaf(m: Memory, head: nat, b: Book, r: nat, h: nat, i: nat, e: Pte, s: nat, v: nat)
    requires Inv(m, head, b) && CanSet(m, b, r, h, i, e)
    requires var f := WithLeaf(b, r, h * ENTRIES + i, e).flat; s in f && v in f[s]
    ensures LeafOk(SetEntry(m, b.dirs[Low(r, h)], i, e), WithLeaf(b, r, h * ENTRIES + i, e), s, v)
  {
    var vpn := h * ENTRIES + i;
    assert vpn / ENTRIES == h;
    if s != r || v != vpn {
      assert LeafOk(m, b, s, v);
    }
  }

  lemma SetLeafRole(m: Memory, head: nat, b: Book, r: nat, h: nat, i: nat, e: Pte, x: nat)
    requires Inv(m, head, b) && CanSet(m, b, r, h, i, e) && x in b.role && h * ENTRIES + i !in b.flat[r]
    ensures RoleOk(WithLeaf(b, r, h * ENTRIES + i, e), x)
  {
    assert RoleOk(b, x);
  }

  lemma SetLeafKeys(m: Memory, b: Book, r: nat, h: nat, i: nat, e: Pte)
    requires CanSet(m, b, r, h, i, e)
    ensures r in b.flat && (h * ENTRIES + i !in b.flat[r])
    ensures WithLeaf(b, r, h * ENTRIES + i, e).role.Keys == b.role.Keys
    ensures WithLeaf(b, r, h * ENTRIES + i, e).flat.Keys == b.flat.Keys
  {
    assert EntryOk(b, Low(r, h), i, m[b.dirs[Low(r, h)]].ptes[i]);
  }

  lemma SetLeafList(m: Memory, head: nat, b: Book, r: nat, h: nat, i: nat, e: Pte)
    requires Inv(m, head, b) && CanSet(m, b, r, h, i, e)
    ensures FreeList(SetEntry(m, b.dirs[Low(r, h)], i, e), head, WithLeaf(b, r, h * ENTRIES + i, e))
  {
    ListKept(m, head, b, SetEntry(m, b.dirs[Low(r, h)], i, e), WithLeaf(b, r, h * ENTRIES + i, e));
  }

  lemma SetLeafRoles(m: Memory, head: nat, b: Book, r: nat, h: nat, i: nat, e: Pte)
    requires Inv(m, head, b) && CanSet(m, b, r, h, i, e) && h * ENTRIES + i !in b.flat[r]
    ensures var c := WithLeaf(b, r, h * ENTRIES + i, e);
            forall p {:trigger RoleOk(c, p)} :: p in c.role ==> RoleOk(c, p)
  {
    SetLeafKeys(m, b, r, h, i, e);
    var c := WithLeaf(b, r, h * ENTRIES + i, e);
    forall p | p in b.role
      ensures RoleOk(c, p)
    {
      SetLeafRole(m, head, b, r, h, i, e, p);
    }
  }

  lemma SetLeafTables(m: Memory, head: nat, b: Book, r: nat, h: nat, i: nat, e: Pte)
    requires Inv(m, head, b) && CanSet(m, b, r, h, i, e)
    ensures var n, c := SetEntry(m, b.dirs[Low(r, h)], i, e), WithLeaf(b, r, h * ENTRIES + i, e);
            && (forall k {:trigger DirOk(n, c, k)} :: k in c.dirs ==> DirOk(n, c, k))
            && (forall s, v {:trigger LeafOk(n, c, s, v)} :: s in c.flat && v in c.flat[s] ==> LeafOk(n, c, s, v))
  {
    var n, c := SetEntry(m, b.dirs[Low(r, h)], i, e), WithLeaf(b, r, h * ENTRIES + i, e);
    forall k | k in c.dirs
      ensures DirOk(n, c, k)
    {
      SetLeafDir(m, head, b, r, h, i, e, k);
    }
    forall s, v | s in c.flat && v in c.flat[s]
      ensures LeafOk(n, c, s, v)
    {
      SetLeafLeaf(m, head, b, r, h, i, e, s, v);
    }
  }

  lemma SetLeaf(m: Memory, head: nat, b: Book, r: nat, h: nat, i: nat, e: Pte)
    requires Inv(m, head, b) && CanSet(m, b, r, h, i, e) && h * ENTRIES + i !in b.flat[r]
    ensures Inv(SetEntry(m, b.dirs[Low(r, h)], i, e), head, WithLeaf(b, r, h * ENTRIES + i, e))
  {
    SetLeafKeys(m, b, r, h, i, e);
    SetLeafList(m, head, b, r, h, i, e);
    SetLeafTables(m, head, b, r, h, i, e);
    SetLeafRoles(m, head, b, r, h, i, e);
  }

  ghost predicate CanClear(m: Memory, b: Book, r: nat, h: nat, i: nat) {
    Low(r, h) in b.dirs && DirOk(m, b, Low(r, h)) && i < ENTRIES && m[b.dirs[Low(r, h)]].ptes[i].v
  }

  /** What a valid entry of a lowest-level page says about the abstract table. */
  lemma EntryIsLeaf(m: Memory, head: nat, b: Book, r: nat, h: nat, i: nat)
    requires Inv(m, head, b) && CanClear(m, b, r, h, i)
    ensures var vpn := h * ENTRIES + i;
            && r in b.flat && vpn in b.flat[r] && b.flat[r][vpn] == m[b.dirs[Low(r, h)]].ptes[i] && vpn < MAXVPN
            && (!Special(vpn) ==> UserPage(m, b, r, vpn, b.flat[r][vpn].ppn))
  {
    assert EntryOk(b, Low(r, h), i, m[b.dirs[Low(r, h)]].ptes[i]);
    assert LeafOk(m, b, r, h * ENTRIES + i);
  }

  lemma ClearLeafDir(m: Memory, head: nat, b: Book, r: nat, h: nat, i: nat, k: Dir)
    requires Inv(m, head, b) && CanClear(m, b, r, h, i) && k in b.dirs
    requires r in b.flat && h * ENTRIES + i in b.flat[r]
    ensures DirOk(SetEntry(m, b.dirs[Low(r, h)], i, ZERO), WithoutLeaf(b, r, h * ENTRIES + i, Held), k)
  {
    var vpn, q := h * ENTRIES + i, b.dirs[Low(r, h)];
    var m', b' := SetEntry(m, q, i, ZERO), WithoutLeaf(b, r, vpn, Held);
    EntryIsLeaf(m, head, b, r, h, i);
    assert DirOk(m, b, k);
    forall j | 0 <= j < ENTRIES
      ensures EntryOk(b', k, j, m'[b'.dirs[k]].ptes[j])
    {
      assert EntryOk(b, k, j, m[b.dirs[k]].ptes[j]);
    }
  }

  lemma ClearLeafLeaf(m: Memory, head: nat, b: Book, r: nat, h: nat, i: nat, s: nat, v: nat)
    requires Inv(m, head, b) && CanClear(m, b, r, h, i) && r in b.flat && h * ENTRIES + i in b.flat[r]
    requires var f := WithoutLeaf(b, r, h * ENTRIES + i, Held).flat; s in f && v in f[s]
    ensures LeafOk(SetEntry(m, b.dirs[Low(r, h)], i, ZERO), WithoutLeaf(b, r, h * ENTRIES + i, Held), s, v)
  {
    EntryIsLeaf(m, head, b, r, h, i);
    assert LeafOk(m, b, s, v);
  }

  lemma ClearLeafRole(m: Memory, head: nat, b: Book, r: nat, h: nat, i: nat, x: nat)
    requires Inv(m, head, b) && CanClear(m, b, r, h, i) && r in b.flat && h * ENTRIES + i in b.flat[r]
    requires x in b.role
    ensures RoleOk(WithoutLeaf(b, r, h * ENTRIES + i, Held), x)
  {
    EntryIsLeaf(m, head, b, r, h, i);
    assert RoleOk(b, x);
  }

  lemma ClearLeafKeys(m: Memory, head: nat, b: Book, r: nat, h: nat, i: nat)
    requires Inv(m, head, b) && CanClear(m, b, r, h, i) && r in b.flat && h * ENTRIES + i in b.flat[r]
    ensures WithoutLeaf(b, r, h * ENTRIES + i, Held).role.Keys == b.role.Keys
    ensures WithoutLeaf(b, r, h * ENTRIES + i, Held).flat.Keys == b.flat.Keys
  {
    EntryIsLeaf(m, head, b, r, h, i);
  }

  lemma ClearLeafList(m: Memory, head: nat, b: Book, r: nat, h: nat, i: nat)
    requires Inv(m, head, b) && CanClear(m, b, r, h, i) && r in b.flat && h * ENTRIES + i in b.flat[r]
    ensures FreeList(SetEntry(m, b.dirs[Low(r, h)], i, ZERO), head, WithoutLeaf(b, r, h * ENTRIES + i, Held))
  {
    EntryIsLeaf(m, head, b, r, h, i);
    ListKept(m, head, b, SetEntry(m, b.dirs[Low(r, h)], i, ZERO), WithoutLeaf(b, r, h * ENTRIES + i, Held));
  }

  /** The page that was mapped is held again. */
  lemma ClearLeaf(m: Memory, head: nat, b: Book, r: nat, h: nat, i: nat)
    requires Inv(m, head, b) && CanClear(m, b, r, h, i) && r in b.flat && h * ENTRIES + i in b.flat[r]
    ensures Inv(SetEntry(m, b.dirs[Low(r, h)], i, ZERO), head, WithoutLeaf(b, r, h * ENTRIES + i, Held))
  {
    var vpn, q := h * ENTRIES + i, b.dirs[Low(r, h)];
    var m', b' := SetEntry(m, q, i, ZERO), WithoutLeaf(b, r, vpn, Held);
    ClearLeafList(m, head, b, r, h, i);
    forall k | k in b'.dirs
      ensures DirOk(m', b', k)
    {
      ClearLeafDir(m, head, b, r, h, i, k);
    }
    forall s, v | s in b'.flat && v in b'.flat[s]
      ensures LeafOk(m', b', s, v)
    {
      ClearLeafLeaf(m, head, b, r, h, i, s, v);
    }
    ClearLeafKeys(m, head, b, r, h, i);
    forall x | x in b.role
      ensures RoleOk(b', x)
    {
      ClearLeafRole(m, head, b, r, h, i, x);
    }
  }

  /** The bytes of a mapped page may change. */
  lemma SetBytes(m: Memory, head: nat, b: Book, r: nat, vpn: nat, bytes: seq<nat>)
    requires Inv(m, head, b) && r in b.flat && vpn in b.flat[r] && !Special(vpn) && |bytes| == PGSIZE
    ensures UserPage(m, b, r, vpn, b.flat[r][vpn].ppn)
    ensures Inv(m[b.flat[r][vpn].ppn := Data(bytes)], head, b)
  {
    assert LeafOk(m, b, r, vpn);
    var m' := m[b.flat[r][vpn].ppn := Data(bytes)];
    ListKept(m, head, b, m', b);
    forall k | k in b.dirs
      ensures DirOk(m', b, k)
    {
      assert DirOk(m, b, k);
      DirKept(m, b, m', b, k);
    }
    forall s, v | s in b.flat && v in b.flat[s]
      ensures LeafOk(m', b, s, v)
    {
      assert LeafOk(m, b, s, v);
    }
  }

  // ---------- taking a table apart ----------

  /** Page-table page j is k or reached through k. */
  predicate Under(j: Dir, k: Dir) {
    j.root == k.root &&
    match k
    case Top(_) => true
    case Mid(_, a) => (j.Mid? && j.a == a) || (j.Low? && j.h / ENTRIES == a)
    case Low(_, h) => j.Low? && j.h == h
  }

  /** The entry of k through which j is reached. */
  function IndexIn(j: Dir, k: Dir): nat {
    if k.Top? then (if j.Mid? then j.a else if j.Low? then j.h / ENTRIES else 0)
    else if j.Low? then j.h % ENTRIES else 0
  }

  predicate Gone(j: Dir, k: Dir, i: nat) {
    Under(j, k) && j != k && IndexIn(j, k) < i
  }

  predicate LeafUnder(vpn: nat, k: Dir) {
    match k
    case Top(_) => true
    case Mid(_, a) => vpn / ENTRIES / ENTRIES == a
    case Low(_, h) => vpn / ENTRIES == h
  }

  ghost predicate NoLeafUnder(b: Book, k: Dir) {
    k.root in b.flat ==> forall vpn :: vpn in b.flat[k.root] ==> !LeafUnder(vpn, k)
  }

  /** The book after everything below the first i entries of k has been freed. */
  ghost predicate CutTo(b: Book, c: Book, k: Dir, i: nat) {
    && c.flat == b.flat && c.hole == NoHole && c.role.Keys == b.role.Keys
    && (forall j {:trigger j in c.dirs} :: j in c.dirs <==> j in b.dirs && !Gone(j, k, i))
    && (forall j {:trigger c.dirs[j]} :: j in c.dirs ==> c.dirs[j] == b.dirs[j])
    && (forall p {:trigger c.role[p]} :: p in b.role ==>
          c.role[p] == if b.role[p].Interior? && Gone(b.role[p].dir, k, i) then Free else b.role[p])
  }

  /** The book after k and everything below it has been freed. */
  ghost predicate CutOff(b: Book, c: Book, k: Dir) {
    && c.flat == (if k.Top? then b.flat - {k.root} else b.flat)
    && c.hole == (if k.Top? then NoHole else Dangling(k)) && c.role.Keys == b.role.Keys
    && (forall j {:trigger j in c.dirs} :: j in c.dirs <==> j in b.dirs && !Under(j, k))
    && (forall j {:trigger c.dirs[j]} :: j in c.dirs ==> c.dirs[j] == b.dirs[j])
    && (forall p {:trigger c.role[p]} :: p in b.role ==>
          c.role[p] == if b.role[p].Interior? && Under(b.role[p].dir, k) then Free else b.role[p])
  }

  lemma UnderChild(j: Dir, k: Dir, i: nat)
    requires !k.Low? && i < ENTRIES && (k.Mid? ==> k.a < ENTRIES)
    ensures Under(j, Child(k, i)) <==>
              Under(j, k) && j != k && !(k.Mid? && j.Mid?) && IndexIn(j, k) == i && !(k.Top? && j.Top?)
  {
    if k.Mid? && j.Low? {
      assert j.h == j.h / ENTRIES * ENTRIES + j.h % ENTRIES;
    }
  }

  lemma UnderTwice(j: Dir, k: Dir)
    requires Under(j, k) && j != k
    ensures !(k.Mid? && j.Mid?) && !(k.Top? && j.Top?) && !k.Low?
  {
  }

  lemma CutOneMore(b: Book, c: Book, d: Book, k: Dir, i: nat)
    requires !k.Low? && i < ENTRIES && (k.Mid? ==> k.a < ENTRIES)
    requires CutTo(b, c, k, i) && CutOff(c, d, Child(k, i))
    ensures CutTo(b, d.(hole := NoHole), k, i + 1)
  {
    forall j: Dir
      ensures Gone(j, k, i + 1) <==> Gone(j, k, i) || Under(j, Child(k, i))
    {
      UnderChild(j, k, i);
      if Under(j, k) && j != k {
        UnderTwice(j, k);
      }
    }
    var e := d.(hole := NoHole);
    forall p | p in b.role
      ensures e.role[p] == if b.role[p].Interior? && Gone(b.role[p].dir, k, i + 1) then Free else b.role[p]
    {
      assert c.role[p] == if b.role[p].Interior? && Gone(b.role[p].dir, k, i) then Free else b.role[p];
    }
  }

  /** What is reached through an entry of k is reached through a child of k in the table. */
  lemma InDirs(m: Memory, b: Book, k: Dir, j: Dir)
    requires DirOk(m, b, k) && DirOk(m, b, j) && Under(j, k) && j != k
    requires forall l {:trigger DirOk(m, b, l)} :: l in b.dirs ==> DirOk(m, b, l)
    ensures !k.Low? && IndexIn(j, k) < ENTRIES && Child(k, IndexIn(j, k)) in b.dirs
  {
    UnderTwice(j, k);
    if k.Top? && j.Low? {
      assert DirOk(m, b, Mid(j.root, j.h / ENTRIES));
    }
  }

  /** An entry that is not valid has nothing below it. */
  lemma CutNothing(m: Memory, head: nat, b: Book, c: Book, k: Dir, i: nat)
    requires Inv(m, head, c) && CutTo(b, c, k, i) && k in c.dirs && i < ENTRIES && DirOk(m, c, k)
    requires !m[c.dirs[k]].ptes[i].v
    ensures CutTo(b, c, k, i + 1)
  {
    assert EntryOk(c, k, i, m[c.dirs[k]].ptes[i]);
    forall j | j in c.dirs
      ensures !Gone(j, k, i + 1)
    {
      assert DirOk(m, c, j);
      if Under(j, k) && j != k && IndexIn(j, k) == i {
        InDirs(m, c, k, j);
        assert false;
      }
    }
    forall p | p in b.role
      ensures c.role[p] == if b.role[p].Interior? && Gone(b.role[p].dir, k, i + 1) then Free else b.role[p]
    {
      assert RoleOk(c, p);
    }
  }

  lemma CloseHole(m: Memory, head: nat, b: Book, k: Dir, i: nat)
    requires Inv(m, head, b) && !k.Low? && i < ENTRIES && b.hole == Dangling(Child(k, i))
    requires k in b.dirs && DirOk(m, b, k) && Child(k, i) !in b.dirs
    ensures Inv(SetEntry(m, b.dirs[k], i, ZERO), head, b.(hole := NoHole))
  {
    var m', b' := SetEntry(m, b.dirs[k], i, ZERO), b.(hole := NoHole);
    ListKept(m, head, b, m', b');
    forall l | l in b'.dirs
      ensures DirOk(m', b', l)
    {
      assert DirOk(m, b, l);
      forall j | 0 <= j < ENTRIES
        ensures EntryOk(b', l, j, m'[b'.dirs[l]].ptes[j])
      {
        assert EntryOk(b, l, j, m[b.dirs[l]].ptes[j]);
        if !l.Low? && Child(l, j) == Child(k, i) {
          ChildInjective(m, b, k, i, l, j);
        }
      }
    }
    forall r, vpn | r in b'.flat && vpn in b'.flat[r]
      ensures LeafOk(m', b', r, vpn)
    {
      assert LeafOk(m, b, r, vpn);
    }
    forall p | p in b'.role
      ensures RoleOk(b', p)
    {
      assert RoleOk(b, p);
    }
  }

  function Dropped(b: Book, k: Dir, p: nat): Book {
    b.(free := [p] + b.free, dirs := b.dirs - {k}, role := b.role[p := Free],
       flat := if k.Top? then b.flat - {k.root} else b.flat, hole := if k.Top? then NoHole else Dangling(k))
  }

  ghost predicate Childless(b: Book, k: Dir) {
    && NoLeafUnder(b, k)
    && (!k.Low? ==> forall i :: 0 <= i < ENTRIES ==> Child(k, i) !in b.dirs)
  }

  lemma DropDirDir(m: Memory, head: nat, b: Book, k: Dir, l: Dir)
    requires Inv(m, head, b) && b.hole == NoHole && k in b.dirs && Childless(b, k) && l in b.dirs && l != k
    requires k.root in b.flat
    ensures DirOk(m[b.dirs[k] := Run(head)], Dropped(b, k, b.dirs[k]), l)
  {
    var m', b' := m[b.dirs[k] := Run(head)], Dropped(b, k, b.dirs[k]);
    assert DirOk(m, b, l) && DirOk(m, b, k);
    NoneBelow(m, head, b, k, l);
    forall j | 0 <= j < ENTRIES
      ensures EntryOk(b', l, j, m'[b'.dirs[l]].ptes[j])
    {
      assert EntryOk(b, l, j, m[b.dirs[l]].ptes[j]);
    }
  }

  lemma NoneBelow(m: Memory, head: nat, b: Book, k: Dir, l: Dir)
    requires Inv(m, head, b) && k in b.dirs && Childless(b, k) && l in b.dirs
    ensures Under(l, k) ==> l == k
  {
    assert DirOk(m, b, l) && DirOk(m, b, k);
    if Under(l, k) && l != k {
      InDirs(m, b, k, l);
      assert false;
    }
  }

  lemma DropDir(m: Memory, head: nat, b: Book, k: Dir)
    requires Inv(m, head, b) && b.hole == NoHole && k in b.dirs && Childless(b, k) && k.root in b.flat
    ensures Inv(m[b.dirs[k] := Run(head)], b.dirs[k], Dropped(b, k, b.dirs[k]))
  {
    assert DirOk(m, b, k);
    var p := b.dirs[k];
    var m', b' := m[p := Run(head)], Dropped(b, k, p);
    PushedList(m, head, b, p);
    assert FreeList(m', p, b') by {
      forall i | 0 <= i < |b'.free|
        ensures FreeAt(m', b', i)
      {
        assert FreeAt(m', Pushed(b, p), i);
      }
    }
    forall l | l in b'.dirs
      ensures DirOk(m', b', l)
    {
      DropDirDir(m, head, b, k, l);
    }
    forall r, vpn | r in b'.flat && vpn in b'.flat[r]
      ensures LeafOk(m', b', r, vpn)
    {
      assert LeafOk(m, b, r, vpn);
    }
    forall x | x in b'.role
      ensures RoleOk(b', x)
    {
      assert RoleOk(b, x);
      assert b.role[x].User? && k.Top? && b.role[x].root == k.root ==> LeafUnder(b.role[x].vpn, k);
    }
  }

  lemma CutLast(b: Book, c: Book, k: Dir, m: Memory, head: nat)
    requires Inv(m, head, c) && CutTo(b, c, k, ENTRIES) && k in c.dirs && k.root in c.flat && NoLeafUnder(b, k)
    ensures Childless(c, k) && CutOff(b, Dropped(c, k, c.dirs[k]), k)
  {
    assert DirOk(m, c, k);
    forall j | j in c.dirs
      ensures Under(j, k) ==> j == k
    {
      assert DirOk(m, c, j);
      if Under(j, k) && j != k {
        UnderTwice(j, k);
        assert Gone(j, k, ENTRIES);
      }
    }
    if !k.Low? {
      forall i | 0 <= i < ENTRIES
        ensures Child(k, i) !in c.dirs
      {
        UnderChild(Child(k, i), k, i);
      }
    }
    var d := Dropped(c, k, c.dirs[k]);
    forall p | p in b.role
      ensures d.role[p] == if b.role[p].Interior? && Under(b.role[p].dir, k) then Free else b.role[p]
    {
      assert RoleOk(c, p);
      assert c.role[p] == if b.role[p].Interior? && Gone(b.role[p].dir, k, ENTRIES) then Free else b.role[p];
    }
  }
}
