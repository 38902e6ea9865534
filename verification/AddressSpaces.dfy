/** What the operations on page tables do to the book, as relations between states. */
module AddressSpaces {
  import opened Sv39
  import opened PageTables

  // ---------- what an operation may do to the book ----------

  /** The pages on the free list may become page-table pages of root; nothing else changes. */
  ghost predicate Grown(b: Book, c: Book, root: nat) {
    && c.flat == b.flat && c.hole == b.hole && c.role.Keys == b.role.Keys
    && (forall k {:trigger c.dirs[k]} {:trigger k in c.dirs} :: k in b.dirs ==> k in c.dirs && c.dirs[k] == b.dirs[k])
    && (forall p {:trigger c.role[p]} :: p in b.role ==>
          c.role[p] == b.role[p] || (b.role[p] == Free && c.role[p].Interior? && c.role[p].dir.root == root))
  }

  /** Pages that were neither free nor page-table pages keep their contents. */
  ghost predicate SameData(m: Memory, b: Book, n: Memory) {
    && n.Keys == m.Keys
    && forall p {:trigger n[p]} :: p in m && p in b.role && !b.role[p].Free? && !b.role[p].Interior? ==> n[p] == m[p]
  }

  lemma GrownTwice(m: Memory, b: Book, n: Memory, c: Book, o: Memory, d: Book, root: nat)
    requires Grown(b, c, root) && Grown(c, d, root) && SameData(m, b, n) && SameData(n, c, o) && m.Keys == b.role.Keys
    ensures Grown(b, d, root) && SameData(m, b, o)
  {
  }

  /** A page taken from the list is held, whatever is written into it. */
  lemma TakePage(m: Memory, head: nat, b: Book, x: Page)
    requires Inv(m, head, b) && b.free != []
    ensures head == b.free[0] && head in m && m[head].Run? && head in b.role && b.role[head] == Free
    ensures Inv(m[head := x], m[head].next, Popped(b))
  {
    assert FreeAt(m, b, 0);
    PoppedList(m, head, b, x);
    LooseChange(m, head, b, m[head := x], m[head].next, Popped(b), head);
  }

  /** A page that has been taken becomes a new child of k. */
  lemma ChildAdded(m: Memory, b: Book, n: Memory, head: nat, c: Book, k: Dir, i: nat, p: nat, table: nat)
    requires Inv(n, head, c) && c.hole == NoHole && b.role.Keys == m.Keys && b.free != [] && p == b.free[0]
    requires p in b.role && b.role[p] == Free && n == m[p := Table(ZeroTable())] && c == Popped(b)
    requires k in b.dirs && b.dirs[k] == table && !k.Low? && i < ENTRIES && Child(k, i) !in b.dirs
    ensures DirOk(n, c, k) && SameData(m, b, SetEntry(n, table, i, Pte(true, NOFLAGS, p)))
    ensures Inv(SetEntry(n, table, i, Pte(true, NOFLAGS, p)), head, WithChild(c, Child(k, i), p))
    ensures Grown(b, WithChild(c, Child(k, i), p), k.root)
  {
    assert DirOk(n, c, k) && EntryOk(c, k, i, n[table].ptes[i]);
    NewChild(n, head, c, k, i, p);
    assert SameData(m, b, SetEntry(n, table, i, Pte(true, NOFLAGS, p)));
  }

  /** Without the page at a level there is none below. */
  lemma NoDescent(m: Memory, head: nat, b: Book, root: nat, va: nat, level: nat)
    requires Inv(m, head, b) && va < MAXVA && 1 <= level <= 2
    requires level == 2 ==> Mid(root, Px(2, va)) !in b.dirs
    requires level == 1 ==> Low(root, va / PGSIZE / ENTRIES) !in b.dirs
    ensures Low(root, va / PGSIZE / ENTRIES) !in b.dirs
  {
    IndicesArePages(va, 0, 0, 0);
    var k := Low(root, va / PGSIZE / ENTRIES);
    assert k in b.dirs ==> DirOk(m, b, k);
  }

  lemma NotZero(m: Memory, head: nat, b: Book, k: Dir)
    requires Inv(m, head, b) && k in b.dirs
    ensures b.dirs[k] != 0
  {
    assert DirOk(m, b, k);
  }

  ghost predicate UserLeaf(b: Book, root: nat, vpn: nat) {
    root in b.flat && vpn in b.flat[root] && b.flat[root][vpn].flags.u
  }

  /** The lowest-level entry of a page says whether and how it is mapped. */
  lemma LeafEntry(m: Memory, head: nat, b: Book, root: nat, vpn: nat)
    requires Inv(m, head, b) && Low(root, vpn / ENTRIES) in b.dirs
    ensures DirOk(m, b, Low(root, vpn / ENTRIES)) && root in b.flat
    ensures var e := m[b.dirs[Low(root, vpn / ENTRIES)]].ptes[vpn % ENTRIES];
            (e.v <==> vpn in b.flat[root]) && (e.v ==> e == b.flat[root][vpn] && IsLeaf(e.flags))
  {
    var k := Low(root, vpn / ENTRIES);
    assert DirOk(m, b, k);
    assert EntryOk(b, k, vpn % ENTRIES, m[b.dirs[k]].ptes[vpn % ENTRIES]);
  }

  lemma NoLeaf(m: Memory, head: nat, b: Book, root: nat, vpn: nat)
    requires Inv(m, head, b) && root in b.flat && Low(root, vpn / ENTRIES) !in b.dirs
    ensures vpn !in b.flat[root]
  {
    assert vpn in b.flat[root] ==> LeafOk(m, b, root, vpn);
  }

  // ---------- mapping a range ----------

  ghost predicate HeldPage(m: Memory, b: Book, p: nat) {
    p in b.role && b.role[p] == Held && p in m && m[p].Data? && |m[p].bytes| == PGSIZE
  }

  /** The virtual pages from vpn on are not mapped, and the physical ones from ppn on can back them. */
  ghost predicate CanMap(m: Memory, b: Book, root: nat, vpn: nat, ppn: nat, n: nat) {
    && root in b.flat
    && (forall v {:trigger v in b.flat[root]} :: vpn <= v < vpn + n ==> v !in b.flat[root])
    && (forall p {:trigger HeldPage(m, b, p)} :: ppn <= p < ppn + n && !Special(vpn + (p - ppn)) ==> HeldPage(m, b, p))
  }

  predicate InRange(v: nat, vpn: nat, n: nat) {
    vpn <= v < vpn + n
  }

  function VRange(vpn: nat, n: nat): set<nat> {
    set v: nat | 0 <= v < vpn + n && InRange(v, vpn, n)
  }

  function Range(vpn: nat, ppn: nat, flags: Flags, n: nat): map<nat, Pte> {
    map v: nat | 0 <= v < vpn + n && InRange(v, vpn, n) :: Pte(true, flags, ppn + (v - vpn))
  }

  lemma RangeOne(f: map<nat, Pte>, vpn: nat, ppn: nat, flags: Flags)
    ensures f + Range(vpn, ppn, flags, 1) == f[vpn := Pte(true, flags, ppn)]
  {
  }

  /** The abstract tables with n more pages in the table of root. */
  function Mapped(f: map<nat, map<nat, Pte>>, root: nat, vpn: nat, ppn: nat, flags: Flags,
                  n: nat): map<nat, map<nat, Pte>>
    requires root in f
  {
    f[root := f[root] + Range(vpn, ppn, flags, n)]
  }

  lemma MappedJoin(f: map<nat, map<nat, Pte>>, g: map<nat, map<nat, Pte>>, root: nat, vpn: nat, ppn: nat, flags: Flags,
                   n: nat, v: nat, p: nat)
    requires root in f && g == Mapped(f, root, vpn, ppn, flags, n) && v == vpn + n && p == ppn + n
    ensures Mapped(g, root, v, p, flags, 1) == Mapped(f, root, vpn, ppn, flags, n + 1)
  {
    RangeJoin(vpn, ppn, flags, n, v, p);
    var r, one := Range(vpn, ppn, flags, n), Range(v, p, flags, 1);
    assert (f[root] + r) + one == f[root] + (r + one);
  }

  lemma RangeJoin(vpn: nat, ppn: nat, flags: Flags, n: nat, v: nat, p: nat)
    requires v == vpn + n && p == ppn + n
    ensures Range(vpn, ppn, flags, n) + Range(v, p, flags, 1) == Range(vpn, ppn, flags, n + 1)
  {
  }

  /** Physical page p is one of the n pages from ppn on that back ordinary pages from vpn on. */
  predicate Backs(p: nat, vpn: nat, ppn: nat, n: nat) {
    ppn <= p < ppn + n && !Special(vpn + (p - ppn))
  }

  ghost predicate RoleGrown(b: Book, c: Book, root: nat, p: nat) {
    p in b.role && p in c.role &&
    (c.role[p] == b.role[p] || (b.role[p] == Free && c.role[p].Interior? && c.role[p].dir.root == root))
  }

  /** n pages have been added to the table of root. */
  ghost predicate MapsTo(b: Book, c: Book, root: nat, vpn: nat, ppn: nat, flags: Flags, n: nat) {
    && root in b.flat && c.flat == Mapped(b.flat, root, vpn, ppn, flags, n)
    && c.hole == b.hole && c.role.Keys == b.role.Keys
    && (forall k {:trigger c.dirs[k]} {:trigger k in c.dirs} :: k in b.dirs ==> k in c.dirs && c.dirs[k] == b.dirs[k])
    && (forall p {:trigger c.role[p]} :: p in b.role ==>
          if Backs(p, vpn, ppn, n) then c.role[p] == User(root, vpn + (p - ppn)) else RoleGrown(b, c, root, p))
  }

  lemma MapsNothing(b: Book, root: nat, vpn: nat, ppn: nat, flags: Flags)
    requires root in b.flat
    ensures MapsTo(b, b, root, vpn, ppn, flags, 0)
  {
    assert b.flat[root] + Range(vpn, ppn, flags, 0) == b.flat[root];
    assert Mapped(b.flat, root, vpn, ppn, flags, 0) == b.flat;
  }

  lemma MapsGrown(b: Book, c: Book, d: Book, root: nat, vpn: nat, ppn: nat, flags: Flags, n: nat)
    requires MapsTo(b, c, root, vpn, ppn, flags, n) && Grown(c, d, root)
    ensures MapsTo(b, d, root, vpn, ppn, flags, n)
  {
    forall p | p in b.role
      ensures if Backs(p, vpn, ppn, n) then d.role[p] == User(root, vpn + (p - ppn)) else RoleGrown(b, d, root, p)
    {
      assert p in c.role && (c.role[p] == d.role[p] || c.role[p] == Free);
    }
  }

  lemma MapsData(m: Memory, b: Book, n: Memory, c: Book, o: Memory, root: nat, vpn: nat, ppn: nat, flags: Flags,
                 count: nat)
    requires SameData(m, b, n) && SameData(n, c, o) && MapsTo(b, c, root, vpn, ppn, flags, count)
    requires b.role.Keys == m.Keys
    ensures SameData(m, b, o)
  {
    forall p | p in m && !b.role[p].Free? && !b.role[p].Interior?
      ensures o[p] == m[p]
    {
      assert c.role[p] == b.role[p] || c.role[p].User?;
      assert n[p] == m[p];
    }
  }

  /** Writing the entry of an unmapped page whose lowest-level page exists. */
  lemma MapOne(m: Memory, head: nat, b: Book, root: nat, vpn: nat, e: Pte)
    requires Inv(m, head, b) && Low(root, vpn / ENTRIES) in b.dirs && vpn < MAXVPN && e.v && IsLeaf(e.flags)
    requires root in b.flat && vpn !in b.flat[root] && (Special(vpn) || HeldPage(m, b, e.ppn))
    ensures var t := b.dirs[Low(root, vpn / ENTRIES)];
            && t in m && m[t].Table? && |m[t].ptes| == ENTRIES
            && Inv(SetEntry(m, t, vpn % ENTRIES, e), head, WithLeaf(b, root, vpn, e))
            && SameData(m, b, SetEntry(m, t, vpn % ENTRIES, e))
  {
    LeafEntry(m, head, b, root, vpn);
    assert vpn / ENTRIES * ENTRIES + vpn % ENTRIES == vpn;
    SetLeaf(m, head, b, root, vpn / ENTRIES, vpn % ENTRIES, e);
  }

  /** A page-table page may be added, and after that the entry for vpn written. */
  lemma MapsFirst(b: Book, b1: Book, c: Book, root: nat, vpn: nat, p: nat, flags: Flags)
    requires Grown(b, b1, root) && root in b.flat && (Special(vpn) || p in b.role)
    requires c == WithLeaf(b1, root, vpn, Pte(true, flags, p))
    ensures MapsTo(b, c, root, vpn, p, flags, 1)
  {
    RangeOne(b.flat[root], vpn, p, flags);
    assert c.role.Keys == b.role.Keys;
  }

  lemma JoinRole(b: Book, c: Book, d: Book, root: nat, vpn: nat, ppn: nat, flags: Flags, count: nat, v: nat, p: nat,
                 q: nat)
    requires v == vpn + count && p == ppn + count && q in b.role
    requires MapsTo(b, c, root, vpn, ppn, flags, count) && MapsTo(c, d, root, v, p, flags, 1)
    ensures if Backs(q, vpn, ppn, count + 1) then d.role[q] == User(root, vpn + (q - ppn)) else RoleGrown(b, d, root, q)
  {
    assert if Backs(q, vpn, ppn, count) then c.role[q] == User(root, vpn + (q - ppn)) else RoleGrown(b, c, root, q);
    assert if Backs(q, v, p, 1) then d.role[q] == User(root, v + (q - p)) else RoleGrown(c, d, root, q);
  }

  lemma MapsJoin(m: Memory, b: Book, n: Memory, c: Book, o: Memory, d: Book, root: nat, vpn: nat, ppn: nat,
                 flags: Flags, count: nat, v: nat, p: nat)
    requires v == vpn + count && p == ppn + count && b.role.Keys == m.Keys
    requires MapsTo(b, c, root, vpn, ppn, flags, count) && MapsTo(c, d, root, v, p, flags, 1)
    requires SameData(m, b, n) && SameData(n, c, o)
    ensures MapsTo(b, d, root, vpn, ppn, flags, count + 1) && SameData(m, b, o)
  {
    MapsData(m, b, n, c, o, root, vpn, ppn, flags, count);
    BooksJoin(b, c, d, root, vpn, ppn, flags, count, v, p);
  }

  lemma BooksJoin(b: Book, c: Book, d: Book, root: nat, vpn: nat, ppn: nat, flags: Flags, count: nat, v: nat, p: nat)
    requires v == vpn + count && p == ppn + count
    requires MapsTo(b, c, root, vpn, ppn, flags, count) && MapsTo(c, d, root, v, p, flags, 1)
    ensures MapsTo(b, d, root, vpn, ppn, flags, count + 1)
  {
    MappedJoin(b.flat, c.flat, root, vpn, ppn, flags, count, v, p);
    forall k | k in b.dirs
      ensures k in d.dirs && d.dirs[k] == b.dirs[k]
    {
      assert k in c.dirs && c.dirs[k] == b.dirs[k];
    }
    forall q | q in b.role
      ensures if Backs(q, vpn, ppn, count + 1) then d.role[q] == User(root, vpn + (q - ppn))
                else RoleGrown(b, d, root, q)
    {
      JoinRole(b, c, d, root, vpn, ppn, flags, count, v, p, q);
    }
  }

  /** What the next page to map needs still holds after n pages. */
  lemma StillCanMap(m: Memory, b: Book, o: Memory, c: Book, root: nat, vpn: nat, ppn: nat, flags: Flags, n: nat,
                    all: nat, v: nat, p: nat)
    requires v == vpn + n && p == ppn + n
    requires CanMap(m, b, root, vpn, ppn, all) && MapsTo(b, c, root, vpn, ppn, flags, n) && SameData(m, b, o) && n < all
    ensures v !in c.flat[root] && (Special(v) || (HeldPage(o, c, p) && p in b.role))
  {
    assert !Special(vpn + n) ==> HeldPage(m, b, ppn + n);
  }

  // ---------- unmapping a range ----------

  function Cut(f: map<nat, map<nat, Pte>>, root: nat, vpn: nat, n: nat): map<nat, map<nat, Pte>>
    requires root in f
  {
    f[root := map v | v in f[root] && !(vpn <= v < vpn + n) :: f[root][v]]
  }

  predicate UserIn(r: Role, root: nat, vpn: nat, n: nat) {
    r.User? && r.root == root && vpn <= r.vpn < vpn + n
  }

  /** n pages from vpn on have been taken out of the table of root, where they were mapped. */
  ghost predicate Unmaps(b: Book, c: Book, root: nat, vpn: nat, n: nat, now: Role) {
    && root in b.flat && c.flat == Cut(b.flat, root, vpn, n)
    && c.dirs == b.dirs && c.hole == b.hole && c.role.Keys == b.role.Keys
    && (forall p {:trigger c.role[p]} :: p in b.role ==>
           c.role[p] == if UserIn(b.role[p], root, vpn, n) then now else b.role[p])
  }

  predicate Backed(f: map<nat, Pte>, v: nat, p: nat, vpn: nat, n: nat) {
    vpn <= v < vpn + n && v in f && f[v].ppn == p
  }

  /** Page p is one that goes with the range: a user page of it, or, when pages are freed, the page of a special one. */
  predicate Taken(b: Book, p: nat, root: nat, vpn: nat, n: nat, now: Role) {
    root in b.flat && p in b.role &&
    (UserIn(b.role[p], root, vpn, n)
     || (now.Free? && (Backed(b.flat[root], VTRAPFRAME, p, vpn, n) || Backed(b.flat[root], VTRAMPOLINE, p, vpn, n))))
  }

  /** Unmaps, for a range that may hold special pages. */
  ghost predicate UnmapsAny(b: Book, c: Book, root: nat, vpn: nat, n: nat, now: Role) {
    && root in b.flat && c.flat == Cut(b.flat, root, vpn, n)
    && c.dirs == b.dirs && c.hole == b.hole && c.role.Keys == b.role.Keys
    && (forall p {:trigger c.role[p]} :: p in b.role ==>
           c.role[p] == if Taken(b, p, root, vpn, n, now) then now else b.role[p])
  }

  predicate IsHeld(b: Book, p: nat) {
    p in b.role && b.role[p] == Held
  }

  /** The pages of the range can be given back: the special ones among them are held, and are different pages. */
  predicate CanFree(b: Book, root: nat, vpn: nat, n: nat) {
    root in b.flat &&
    var f := b.flat[root];
    && (vpn <= VTRAPFRAME < vpn + n && VTRAPFRAME in f ==> IsHeld(b, f[VTRAPFRAME].ppn))
    && (vpn <= VTRAMPOLINE < vpn + n && VTRAMPOLINE in f ==> IsHeld(b, f[VTRAMPOLINE].ppn))
    && (vpn <= VTRAPFRAME && VTRAMPOLINE < vpn + n && VTRAPFRAME in f && VTRAMPOLINE in f ==>
           f[VTRAPFRAME].ppn != f[VTRAMPOLINE].ppn)
  }

  /** Pages in use before and after keep their contents, page-table pages aside. */
  ghost predicate KeptData(m: Memory, b: Book, n: Memory, c: Book) {
    && n.Keys == m.Keys
    && forall p {:trigger n[p]} ::
         p in m && p in b.role && p in c.role && !b.role[p].Free? && !b.role[p].Interior? && !c.role[p].Free? ==>
           n[p] == m[p]
  }

  predicate NoSpecial(f: map<nat, Pte>, vpn: nat, n: nat) {
    forall v: nat :: Special(v) && vpn <= v < vpn + n ==> v !in f
  }

  lemma UnmapsNothing(b: Book, root: nat, vpn: nat, now: Role)
    requires root in b.flat
    ensures Unmaps(b, b, root, vpn, 0, now)
  {
    assert (map v | v in b.flat[root] && !(vpn <= v < vpn + 0) :: b.flat[root][v]) == b.flat[root];
    assert Cut(b.flat, root, vpn, 0) == b.flat;
  }

  lemma CutMore(f: map<nat, map<nat, Pte>>, root: nat, vpn: nat, n: nat)
    requires root in f
    ensures Cut(Cut(f, root, vpn, n), root, vpn + n, 1) == Cut(f, root, vpn, n + 1)
  {
    assert Cut(Cut(f, root, vpn, n), root, vpn + n, 1)[root] == Cut(f, root, vpn, n + 1)[root];
  }

  lemma UnmapsMore(m: Memory, b: Book, n1: Memory, c: Book, n2: Memory, d: Book, root: nat, vpn: nat, n: nat, now: Role)
    requires UnmapsAny(b, c, root, vpn, n, now) && UnmapsAny(c, d, root, vpn + n, 1, now) && (now.Held? || now.Free?)
    requires m.Keys == b.role.Keys
    requires KeptData(m, b, n1, c) && KeptData(n1, c, n2, d)
    ensures UnmapsAny(b, d, root, vpn, n + 1, now) && KeptData(m, b, n2, d)
  {
    CutMore(b.flat, root, vpn, n);
    forall p | p in b.role
      ensures d.role[p] == if Taken(b, p, root, vpn, n + 1, now) then now else b.role[p]
    {
      assert c.role[p] == if Taken(b, p, root, vpn, n, now) then now else b.role[p];
    }
  }

  lemma UnmapsNone(b: Book, root: nat, vpn: nat, now: Role)
    requires root in b.flat
    ensures UnmapsAny(b, b, root, vpn, 0, now)
  {
    UnmapsNothing(b, root, vpn, now);
  }

  /** Without special pages to free. */
  lemma UnmapsUsers(b: Book, c: Book, root: nat, vpn: nat, n: nat, now: Role)
    requires UnmapsAny(b, c, root, vpn, n, now) && (now.Free? ==> NoSpecial(b.flat[root], vpn, n))
    ensures Unmaps(b, c, root, vpn, n, now)
  {
    forall p | p in b.role
      ensures c.role[p] == if UserIn(b.role[p], root, vpn, n) then now else b.role[p]
    {
      assert Taken(b, p, root, vpn, n, now) <==> UserIn(b.role[p], root, vpn, n);
    }
  }

  /** The next page can still be given back. */
  lemma CanFreeNext(b: Book, c: Book, root: nat, vpn: nat, n: nat, count: nat)
    requires UnmapsAny(b, c, root, vpn, n, Free) && CanFree(b, root, vpn, count) && n < count
    ensures CanFree(c, root, vpn + n, 1)
  {
  }

  /** A page that is not mapped is already out of the table. */
  lemma UnmapsMissing(m: Memory, head: nat, b: Book, root: nat, vpn: nat, now: Role)
    requires Inv(m, head, b) && root in b.flat && vpn !in b.flat[root]
    ensures UnmapsAny(b, b, root, vpn, 1, now) && KeptData(m, b, m, b)
  {
    assert (map v | v in b.flat[root] && !(vpn <= v < vpn + 1) :: b.flat[root][v]) == b.flat[root];
    assert Cut(b.flat, root, vpn, 1) == b.flat;
    forall p | p in b.role
      ensures !Taken(b, p, root, vpn, 1, now)
    {
      assert RoleOk(b, p);
    }
  }

  /** Clearing the entry of a mapped page. */
  lemma ClearOne(m: Memory, head: nat, b: Book, root: nat, vpn: nat)
    requires Inv(m, head, b) && root in b.flat && vpn in b.flat[root]
    ensures vpn < MAXVPN && Low(root, vpn / ENTRIES) in b.dirs && DirOk(m, b, Low(root, vpn / ENTRIES))
    ensures !Special(vpn) ==> UserPage(m, b, root, vpn, b.flat[root][vpn].ppn)
    ensures Inv(SetEntry(m, b.dirs[Low(root, vpn / ENTRIES)], vpn % ENTRIES, ZERO),
              head, WithoutLeaf(b, root, vpn, Held))
  {
    assert LeafOk(m, b, root, vpn);
    LeafEntry(m, head, b, root, vpn);
    assert vpn / ENTRIES * ENTRIES + vpn % ENTRIES == vpn;
    ClearLeaf(m, head, b, root, vpn / ENTRIES, vpn % ENTRIES);
  }

  lemma ClearedBook(m: Memory, head: nat, b: Book, root: nat, vpn: nat)
    requires Inv(m, head, b) && root in b.flat && vpn in b.flat[root]
    ensures UnmapsAny(b, WithoutLeaf(b, root, vpn, Held), root, vpn, 1, Held)
  {
    ClearOne(m, head, b, root, vpn);
    var f: map<nat, Pte> := b.flat[root];
    var c := WithoutLeaf(b, root, vpn, Held);
    assert f - {vpn} == (map v | v in f && !(vpn <= v < vpn + 1) :: f[v]);
    forall p | p in b.role
      ensures c.role[p] == if Taken(b, p, root, vpn, 1, Held) then Held else b.role[p]
    {
      assert RoleOk(b, p);
    }
  }

  /** Giving a held page back. */
  lemma GiveBack(m: Memory, head: nat, b: Book, p: nat)
    requires Inv(m, head, b) && p in b.role && b.role[p] == Held
    ensures p in m && Inv(m[p := Run(head)], p, Pushed(b, p))
  {
    PushedList(m, head, b, p);
    LooseChange(m, head, b, m[p := Run(head)], p, Pushed(b, p), p);
  }

  lemma HeldAgain(m: Memory, head: nat, b: Book, root: nat, vpn: nat)
    requires Inv(m, head, b) && root in b.flat && vpn in b.flat[root]
    ensures Low(root, vpn / ENTRIES) in b.dirs && DirOk(m, b, Low(root, vpn / ENTRIES))
    ensures var n, c := SetEntry(m, b.dirs[Low(root, vpn / ENTRIES)], vpn % ENTRIES, ZERO),
              WithoutLeaf(b, root, vpn, Held);
            Inv(n, head, c) && UnmapsAny(b, c, root, vpn, 1, Held) && KeptData(m, b, n, c)
  {
    ClearOne(m, head, b, root, vpn);
    ClearedBook(m, head, b, root, vpn);
  }

  /** The page is given back first and the entry cleared afterwards. */
  lemma FreedAgain(m: Memory, head: nat, b: Book, root: nat, vpn: nat)
    requires Inv(m, head, b) && root in b.flat && vpn in b.flat[root] && CanFree(b, root, vpn, 1)
    ensures Low(root, vpn / ENTRIES) in b.dirs && DirOk(m, b, Low(root, vpn / ENTRIES))
    ensures var p, t := b.flat[root][vpn].ppn, b.dirs[Low(root, vpn / ENTRIES)];
            var m1 := m[p := Run(head)];
            && p in b.role && b.role[p] != Free && p in m && m1[t] == m[t]
            && var n, c := SetEntry(m1, t, vpn % ENTRIES, ZERO), Pushed(WithoutLeaf(b, root, vpn, Held), p);
               Inv(n, p, c) && UnmapsAny(b, c, root, vpn, 1, Free) && KeptData(m, b, n, c)
  {
    ClearOne(m, head, b, root, vpn);
    var p, t := b.flat[root][vpn].ppn, b.dirs[Low(root, vpn / ENTRIES)];
    var n, c := SetEntry(m, t, vpn % ENTRIES, ZERO), WithoutLeaf(b, root, vpn, Held);
    GiveBack(n, head, c, p);
    assert n[p := Run(head)] == SetEntry(m[p := Run(head)], t, vpn % ENTRIES, ZERO);
    FreedBook(m, head, b, root, vpn);
  }

  lemma FreedBook(m: Memory, head: nat, b: Book, root: nat, vpn: nat)
    requires Inv(m, head, b) && root in b.flat && vpn in b.flat[root] && CanFree(b, root, vpn, 1)
    ensures UnmapsAny(b, Pushed(WithoutLeaf(b, root, vpn, Held), b.flat[root][vpn].ppn), root, vpn, 1, Free)
  {
    var p, c := b.flat[root][vpn].ppn, WithoutLeaf(b, root, vpn, Held);
    assert LeafOk(m, b, root, vpn);
    ClearedBook(m, head, b, root, vpn);
    forall x | x in b.role
      ensures Pushed(c, p).role[x] == if Taken(b, x, root, vpn, 1, Free) then Free else b.role[x]
    {
      assert RoleOk(b, x);
    }
  }

  // ---------- mapping a new page ----------

  function Set(f: map<nat, map<nat, Pte>>, root: nat, vpn: nat, e: Pte): map<nat, map<nat, Pte>>
    requires root in f
  {
    var t: map<nat, Pte> := f[root];
    f[root := t[vpn := e]]
  }

  /** A page that was free backs vpn, and nothing else has changed but page-table pages of root. */
  ghost predicate Fresh(b: Book, c: Book, root: nat, vpn: nat, e: Pte) {
    && root in b.flat && c.flat == Set(b.flat, root, vpn, e)
    && c.hole == b.hole && c.role.Keys == b.role.Keys
    && (forall k {:trigger c.dirs[k]} {:trigger k in c.dirs} :: k in b.dirs ==> k in c.dirs && c.dirs[k] == b.dirs[k])
    && e.ppn in b.role && b.role[e.ppn] == Free && c.role[e.ppn] == User(root, vpn)
    && (forall p {:trigger c.role[p]} :: p in b.role && p != e.ppn ==> RoleGrown(b, c, root, p))
  }

  lemma FreshFromMaps(b: Book, c: Book, root: nat, vpn: nat, p: nat, flags: Flags)
    requires b.free != [] && p == b.free[0] && p in b.role && b.role[p] == Free && root in b.flat && !Special(vpn)
    requires MapsTo(Popped(b), c, root, vpn, p, flags, 1)
    ensures Fresh(b, c, root, vpn, Pte(true, flags, p))
  {
    var e := Pte(true, flags, p);
    RangeOne(b.flat[root], vpn, p, flags);
    assert Popped(b).role[p] == Held;
    forall x | x in b.role && x != p
      ensures RoleGrown(b, c, root, x)
    {
      assert RoleGrown(Popped(b), c, root, x);
    }
  }

  lemma GrownFromMaps(b: Book, c: Book, root: nat, vpn: nat, p: nat, flags: Flags)
    requires b.free != [] && p == b.free[0] && p in b.role && b.role[p] == Free && root in b.flat
    requires MapsTo(Popped(b), c, root, vpn, p, flags, 0)
    ensures c.role[p] == Held && Grown(b, Pushed(c, p), root)
  {
    assert RoleGrown(Popped(b), c, root, p);
    assert Range(vpn, p, flags, 0) == map[];
    assert b.flat[root] + map[] == b.flat[root];
    assert Mapped(b.flat, root, vpn, p, flags, 0) == b.flat;
    forall x | x in b.role
      ensures RoleGrown(b, Pushed(c, p), root, x)
    {
      assert RoleGrown(Popped(b), c, root, x);
    }
  }

  /** After p has been taken and filled, and more page-table pages perhaps made. */
  lemma FreshData(m: Memory, b: Book, p: nat, x: Page, n: Memory)
    requires m.Keys == b.role.Keys && p in b.role && b.role[p] == Free && b.free != [] && p == b.free[0]
    requires SameData(m[p := x], Popped(b), n)
    ensures n[p] == x && SameData(m, b, n) && forall y {:trigger n[p := y]} :: SameData(m, b, n[p := y])
  {
    assert Popped(b).role[p] == Held;
  }

  lemma CanMapHeld(m: Memory, b: Book, root: nat, vpn: nat, p: nat)
    requires root in b.flat && vpn !in b.flat[root] && (Special(vpn) || HeldPage(m, b, p))
    ensures CanMap(m, b, root, vpn, p, 1)
  {
  }

  // ---------- growing, shrinking and copying a table ----------

  function Zeros(): (s: seq<nat>)
    ensures |s| == PGSIZE && forall i :: 0 <= i < PGSIZE ==> s[i] == 0
  {
    seq(PGSIZE, _ => 0)
  }

  /** Exactly the given virtual pages have been added to the table of root, each on a page that was
      free; the rest of the book is as it was but for new page-table pages. */
  ghost predicate Adds(b: Book, c: Book, root: nat, keys: set<nat>) {
    && root in b.flat && root in c.flat && c.flat == b.flat[root := c.flat[root]]
    && c.flat[root].Keys == b.flat[root].Keys + keys
    && (forall v {:trigger c.flat[root][v]} :: v in b.flat[root] && v !in keys ==> c.flat[root][v] == b.flat[root][v])
    && c.hole == b.hole && c.role.Keys == b.role.Keys
    && (forall k {:trigger c.dirs[k]} {:trigger k in c.dirs} :: k in b.dirs ==> k in c.dirs && c.dirs[k] == b.dirs[k])
    && (forall p {:trigger c.role[p]} :: p in b.role ==>
          if c.role[p].User? && c.role[p].root == root && c.role[p].vpn in keys then b.role[p] == Free
              else RoleGrown(b, c, root, p))
  }

  /** A readable user page of zeros backs v. */
  ghost predicate ZeroAt(m: Memory, b: Book, root: nat, v: nat, flags: Flags) {
    && root in b.flat && v in b.flat[root] && b.flat[root][v] == Pte(true, flags, b.flat[root][v].ppn)
    && UserPage(m, b, root, v, b.flat[root][v].ppn) && m[b.flat[root][v].ppn].bytes == Zeros()
  }

  lemma AddsNothing(b: Book, root: nat)
    requires root in b.flat
    ensures Adds(b, b, root, {})
  {
    assert b.flat == b.flat[root := b.flat[root]];
    assert b.flat[root].Keys == b.flat[root].Keys + {};
  }

  lemma AddsMore(m: Memory, head: nat, b: Book, c: Book, d: Book, root: nat, keys: set<nat>, v: nat, e: Pte)
    requires Inv(m, head, b) && Adds(b, c, root, keys) && Fresh(c, d, root, v, e) && v !in b.flat[root]
    ensures Adds(b, d, root, keys + {v})
  {
    assert d.flat[root].Keys == b.flat[root].Keys + (keys + {v});
    assert d.flat == b.flat[root := d.flat[root]];
    forall p | p in b.role
      ensures if d.role[p].User? && d.role[p].root == root && d.role[p].vpn in keys + {v} then b.role[p] == Free
                else RoleGrown(b, d, root, p)
    {
      if p == e.ppn {
        assert c.role[p] == Free;
      } else {
        assert RoleGrown(c, d, root, p) && RoleOk(b, p);
      }
    }
  }

  lemma AddsGrown(b: Book, c: Book, d: Book, root: nat, keys: set<nat>)
    requires Adds(b, c, root, keys) && Grown(c, d, root)
    ensures Adds(b, d, root, keys)
  {
    forall p | p in b.role
      ensures if d.role[p].User? && d.role[p].root == root && d.role[p].vpn in keys then b.role[p] == Free
                else RoleGrown(b, d, root, p)
    {
      assert c.role[p] == d.role[p] || c.role[p] == Free;
    }
  }

  /** Pages in use keep their contents while pages are added. */
  lemma AddsData(m: Memory, b: Book, n: Memory, c: Book, o: Memory, root: nat, keys: set<nat>)
    requires m.Keys == b.role.Keys && Adds(b, c, root, keys) && SameData(m, b, n) && SameData(n, c, o)
    ensures SameData(m, b, o)
  {
    forall p | p in m && !b.role[p].Free? && !b.role[p].Interior?
      ensures o[p] == m[p]
    {
      assert c.role[p] == b.role[p];
      assert n[p] == m[p];
    }
  }

  lemma RolledBackAt(m: Memory, head: nat, b: Book, n: Memory, c: Book, o: Memory, d: Book, root: nat, keys: set<nat>,
                     vpn: nat, count: nat, p: nat)
    requires Inv(m, head, b) && Adds(b, c, root, keys) && Unmaps(c, d, root, vpn, count, Free)
    requires SameData(m, b, n) && KeptData(n, c, o, d) && p in b.role
    requires forall v :: v in keys ==> vpn <= v < vpn + count
    requires forall v :: vpn <= v < vpn + count ==> v !in b.flat[root]
    ensures RoleGrown(b, d, root, p) && (!b.role[p].Free? && !b.role[p].Interior? ==> o[p] == m[p])
  {
    assert RoleOk(b, p);
    assert c.role[p] == b.role[p] || b.role[p] == Free;
    assert d.role[p] == if UserIn(c.role[p], root, vpn, count) then Free else c.role[p];
    assert !b.role[p].Free? && !b.role[p].Interior? ==> n[p] == m[p];
  }

  /** Taking out what has been added leaves the table as it was. */
  lemma RolledBack(m: Memory, head: nat, b: Book, n: Memory, c: Book, o: Memory, d: Book, root: nat, keys: set<nat>,
                   vpn: nat, count: nat)
    requires Inv(m, head, b) && Adds(b, c, root, keys) && Unmaps(c, d, root, vpn, count, Free)
    requires SameData(m, b, n) && KeptData(n, c, o, d)
    requires forall v :: v in keys ==> vpn <= v < vpn + count
    requires forall v :: vpn <= v < vpn + count ==> v !in b.flat[root]
    ensures Grown(b, d, root) && SameData(m, b, o)
  {
    assert d.flat == b.flat by {
      assert d.flat[root] == b.flat[root];
    }
    forall p | p in b.role
      ensures RoleGrown(b, d, root, p)
      ensures !b.role[p].Free? && !b.role[p].Interior? ==> o[p] == m[p]
    {
      RolledBackAt(m, head, b, n, c, o, d, root, keys, vpn, count, p);
    }
  }

  lemma ZeroKept(m: Memory, b: Book, n: Memory, c: Book, root: nat, v: nat, w: nat, e: Pte, flags: Flags)
    requires ZeroAt(m, b, root, w, flags) && SameData(m, b, n) && Fresh(b, c, root, v, e) && v != w
    ensures ZeroAt(n, c, root, w, flags)
  {
    var p := b.flat[root][w].ppn;
    assert RoleGrown(b, c, root, p);
    assert n[p] == m[p];
  }

  /** n pages of zeros have been added from vpn on. */
  ghost predicate ZeroFilled(m: Memory, b: Book, n: Memory, c: Book, root: nat, vpn: nat, count: nat, flags: Flags) {
    && Adds(b, c, root, VRange(vpn, count)) && SameData(m, b, n)
    && forall v {:trigger ZeroAt(n, c, root, v, flags)} :: vpn <= v < vpn + count ==> ZeroAt(n, c, root, v, flags)
  }

  /** The pages between two sizes have been added. */
  ghost predicate Grew(m: Memory, b: Book, n: Memory, c: Book, root: nat, oldsz: nat, newsz: nat, flags: Flags) {
    ZeroFilled(m, b, n, c, root, FirstPage(oldsz), PagesBetween(oldsz, newsz), flags)
  }

  lemma ZeroNothing(m: Memory, b: Book, root: nat, vpn: nat, flags: Flags)
    requires root in b.flat
    ensures ZeroFilled(m, b, m, b, root, vpn, 0, flags)
  {
    AddsNothing(b, root);
    assert VRange(vpn, 0) == {};
  }

  lemma ZeroMore(m: Memory, head: nat, b: Book, n: Memory, c: Book, o: Memory, head': nat, d: Book, root: nat, vpn: nat,
                 count: nat, v: nat, e: Pte, flags: Flags)
    requires Inv(m, head, b) && ZeroFilled(m, b, n, c, root, vpn, count, flags) && Inv(o, head', d)
    requires SameData(n, c, o) && Fresh(c, d, root, v, e) && v == vpn + count && v !in b.flat[root]
    requires e == Pte(true, flags, e.ppn) && e.ppn in o && o[e.ppn] == Data(Zeros())
    ensures ZeroFilled(m, b, o, d, root, vpn, count + 1, flags)
  {
    AddsMore(m, head, b, c, d, root, VRange(vpn, count), v, e);
    assert VRange(vpn, count) + {v} == VRange(vpn, count + 1);
    AddsData(m, b, n, c, o, root, VRange(vpn, count));
    forall w | vpn <= w < vpn + count + 1
      ensures ZeroAt(o, d, root, w, flags)
    {
      if w != v {
        assert ZeroAt(n, c, root, w, flags);
        ZeroKept(n, c, o, d, root, v, w, e, flags);
      }
    }
  }

  /** When the next page cannot be had, those added so far are taken out again. */
  lemma ZeroBack(m: Memory, head: nat, b: Book, n: Memory, c: Book, n1: Memory, c1: Book, o: Memory, d: Book, root: nat,
                 vpn: nat, count: nat, flags: Flags)
    requires Inv(m, head, b) && ZeroFilled(m, b, n, c, root, vpn, count, flags)
    requires Grown(c, c1, root) && SameData(n, c, n1) && Unmaps(c1, d, root, vpn, count, Free) && KeptData(n1, c1, o, d)
    requires forall v :: vpn <= v < vpn + count ==> v !in b.flat[root]
    ensures Grown(b, d, root) && SameData(m, b, o)
  {
    AddsData(m, b, n, c, n1, root, VRange(vpn, count));
    AddsGrown(b, c, c1, root, VRange(vpn, count));
    RolledBack(m, head, b, n1, c1, o, d, root, VRange(vpn, count), vpn, count);
  }

  /** The pages below count that are mapped in the given table. */
  function Below(f: map<nat, Pte>, count: nat): set<nat> {
    set v | v in f && v < count
  }

  /** The new table has a page of its own for v, with the flags and bytes of the old one's. */
  ghost predicate CopyAt(m: Memory, b: Book, n: Memory, c: Book, src: nat, dst: nat, v: nat) {
    && src in b.flat && v in b.flat[src] && dst in c.flat && v in c.flat[dst]
    && c.flat[dst][v] == Pte(true, b.flat[src][v].flags, c.flat[dst][v].ppn)
    && UserPage(n, c, dst, v, c.flat[dst][v].ppn)
    && b.flat[src][v].ppn in m && n[c.flat[dst][v].ppn] == m[b.flat[src][v].ppn]
  }

  /** The pages below count have been copied from one table to the other. */
  ghost predicate Copied(m: Memory, b: Book, n: Memory, c: Book, src: nat, dst: nat, count: nat) {
    && src in b.flat && Adds(b, c, dst, Below(b.flat[src], count)) && SameData(m, b, n)
    && forall v {:trigger CopyAt(m, b, n, c, src, dst, v)} :: v in b.flat[src] && v < count ==>
         CopyAt(m, b, n, c, src, dst, v)
  }

  lemma CopiedNothing(m: Memory, b: Book, src: nat, dst: nat)
    requires src in b.flat && dst in b.flat
    ensures Copied(m, b, m, b, src, dst, 0)
  {
    AddsNothing(b, dst);
    assert Below(b.flat[src], 0) == {};
  }

  lemma CopyKept(m0: Memory, b0: Book, m: Memory, b: Book, n: Memory, c: Book, src: nat, dst: nat, w: nat, v: nat,
                 e: Pte)
    requires CopyAt(m0, b0, m, b, src, dst, w) && SameData(m, b, n) && Fresh(b, c, dst, v, e) && v != w
    ensures CopyAt(m0, b0, n, c, src, dst, w)
  {
    var p := b.flat[dst][w].ppn;
    assert RoleGrown(b, c, dst, p);
    assert n[p] == m[p];
  }

  lemma CopiedMore(m: Memory, head: nat, b: Book, n: Memory, c: Book, o: Memory, head': nat, d: Book, src: nat,
                   dst: nat, v: nat, e: Pte)
    requires Inv(m, head, b) && Copied(m, b, n, c, src, dst, v) && src != dst && Inv(o, head', d) && !Special(v)
    requires v in b.flat[src] && v !in b.flat[dst]
    requires SameData(n, c, o) && Fresh(c, d, dst, v, e) && e == Pte(true, b.flat[src][v].flags, e.ppn)
    requires e.ppn in o && b.flat[src][v].ppn in m && o[e.ppn] == m[b.flat[src][v].ppn]
    ensures Copied(m, b, o, d, src, dst, v + 1)
  {
    AddsMore(m, head, b, c, d, dst, Below(b.flat[src], v), v, e);
    assert Below(b.flat[src], v) + {v} == Below(b.flat[src], v + 1);
    AddsData(m, b, n, c, o, dst, Below(b.flat[src], v));
    forall w | w in b.flat[src] && w < v + 1
      ensures CopyAt(m, b, o, d, src, dst, w)
    {
      if w != v {
        assert CopyAt(m, b, n, c, src, dst, w);
        CopyKept(m, b, n, c, o, d, src, dst, w, v, e);
      } else {
        CopyNew(m, head, b, c, o, d, src, dst, v, e);
      }
    }
  }

  lemma CopyNew(m: Memory, head: nat, b: Book, c: Book, o: Memory, d: Book, src: nat, dst: nat, v: nat, e: Pte)
    requires Inv(m, head, b) && src in b.flat && v in b.flat[src] && !Special(v)
    requires Fresh(c, d, dst, v, e) && e == Pte(true, b.flat[src][v].flags, e.ppn)
    requires e.ppn in o && b.flat[src][v].ppn in m && o[e.ppn] == m[b.flat[src][v].ppn]
    ensures CopyAt(m, b, o, d, src, dst, v)
  {
    assert LeafOk(m, b, src, v);
  }

  lemma CopiedSkip(m: Memory, b: Book, n: Memory, c: Book, src: nat, dst: nat, v: nat)
    requires Copied(m, b, n, c, src, dst, v) && v !in b.flat[src]
    ensures Copied(m, b, n, c, src, dst, v + 1)
  {
    assert Below(b.flat[src], v) == Below(b.flat[src], v + 1);
  }

  /** The old table and its pages are as they were while the copy goes on. */
  lemma CopySource(m: Memory, head: nat, b: Book, n: Memory, c: Book, src: nat, dst: nat, v: nat)
    requires Inv(m, head, b) && Copied(m, b, n, c, src, dst, v) && src != dst
    ensures src in c.flat && c.flat[src] == b.flat[src] && dst in c.flat
    ensures v !in b.flat[dst] ==> v !in c.flat[dst]
    ensures v in b.flat[src] && !Special(v) ==>
              UserPage(m, b, src, v, b.flat[src][v].ppn) && n[b.flat[src][v].ppn] == m[b.flat[src][v].ppn]
  {
    if v in b.flat[src] {
      assert LeafOk(m, b, src, v);
    }
  }

  lemma CopyBack(m: Memory, head: nat, b: Book, n: Memory, c: Book, n1: Memory, c1: Book, o: Memory, d: Book, src: nat,
                 dst: nat, count: nat)
    requires Inv(m, head, b) && Copied(m, b, n, c, src, dst, count)
    requires Grown(c, c1, dst) && SameData(n, c, n1) && Unmaps(c1, d, dst, 0, count, Free) && KeptData(n1, c1, o, d)
    requires forall v :: v < count ==> v !in b.flat[dst]
    ensures Grown(b, d, dst) && SameData(m, b, o)
  {
    AddsData(m, b, n, c, n1, dst, Below(b.flat[src], count));
    AddsGrown(b, c, c1, dst, Below(b.flat[src], count));
    RolledBack(m, head, b, n1, c1, o, d, dst, Below(b.flat[src], count), 0, count);
  }

  // ---------- freeing a table ----------

  function Height(k: Dir): nat {
    match k
    case Top(_) => 2
    case Mid(_, _) => 1
    case Low(_, _) => 0
  }

  lemma UnderLow(k: Dir, i: nat)
    ensures k.Low? && i < ENTRIES ==> LeafUnder(k.h * ENTRIES + i, k)
  {
  }

  /** With no leaf below k, a valid entry of k is not a leaf and points to a child that has none either. */
  lemma ValidEntry(m: Memory, head: nat, b: Book, k: Dir, i: nat)
    requires Inv(m, head, b) && b.hole == NoHole && k in b.dirs && DirOk(m, b, k) && NoLeafUnder(b, k) && i < ENTRIES
    requires m[b.dirs[k]].ptes[i].v
    ensures !k.Low? && !IsLeaf(m[b.dirs[k]].ptes[i].flags)
    ensures Child(k, i) in b.dirs && b.dirs[Child(k, i)] == m[b.dirs[k]].ptes[i].ppn && NoLeafUnder(b, Child(k, i))
  {
    UnderLow(k, i);
    assert EntryOk(b, k, i, m[b.dirs[k]].ptes[i]);
  }

  lemma CutToStart(b: Book, k: Dir)
    requires b.hole == NoHole
    ensures CutTo(b, b, k, 0)
  {
  }

  /** k itself is still there while what is below it goes. */
  lemma CutToKeeps(b: Book, c: Book, k: Dir, i: nat)
    requires CutTo(b, c, k, i) && k in b.dirs
    ensures k in c.dirs && c.dirs[k] == b.dirs[k] && (NoLeafUnder(b, k) ==> NoLeafUnder(c, k))
  {
  }

  lemma CutOffKeeps(b: Book, c: Book, k: Dir, i: nat)
    requires !k.Low? && i < ENTRIES && CutOff(b, c, Child(k, i)) && k in b.dirs
    ensures k in c.dirs && c.dirs[k] == b.dirs[k] && Child(k, i) !in c.dirs && c.hole == Dangling(Child(k, i))
  {
  }

  lemma CutData(m: Memory, b: Book, n: Memory, c: Book, o: Memory, k: Dir, i: nat)
    requires SameData(m, b, n) && SameData(n, c, o) && CutTo(b, c, k, i) && m.Keys == b.role.Keys
    ensures SameData(m, b, o)
  {
    forall p | p in m && !b.role[p].Free? && !b.role[p].Interior?
      ensures o[p] == m[p]
    {
      assert c.role[p] == b.role[p];
      assert n[p] == m[p];
    }
  }

  /** Clearing entry i of k once the child it pointed to has been freed. */
  lemma ChildCut(m: Memory, b: Book, m1: Memory, b1: Book, n: Memory, head: nat, c: Book, k: Dir, i: nat)
    requires !k.Low? && i < ENTRIES && (k.Mid? ==> k.a < ENTRIES) && k in b1.dirs && m.Keys == b.role.Keys
    requires CutTo(b, b1, k, i) && SameData(m, b, m1)
    requires Inv(n, head, c) && CutOff(b1, c, Child(k, i)) && SameData(m1, b1, n)
    ensures k in c.dirs && c.dirs[k] == b1.dirs[k] && DirOk(n, c, k)
    ensures var o := SetEntry(n, c.dirs[k], i, ZERO);
            Inv(o, head, c.(hole := NoHole)) && CutTo(b, c.(hole := NoHole), k, i + 1) && SameData(m, b, o)
  {
    CutData(m, b, m1, b1, n, k, i);
    CutOffKeeps(b1, c, k, i);
    CutOneMore(b, b1, c, k, i);
    assert DirOk(n, c, k);
    CloseHole(n, head, c, k, i);
    assert c.role[c.dirs[k]] == Interior(k);
    assert b1.role[c.dirs[k]].Interior?;
    assert b.role[c.dirs[k]].Interior?;
  }

  predicate Owned(r: Role, root: nat) {
    (r.Interior? && r.dir.root == root) || (r.User? && r.root == root)
  }

  /** The table of root is gone and every page that belonged to it, and no other, is free. */
  ghost predicate Freed(b: Book, c: Book, root: nat) {
    && c.flat == b.flat - {root} && c.role.Keys == b.role.Keys
    && (forall p {:trigger c.role[p]} :: p in b.role ==>
           c.role[p] == if Owned(b.role[p], root) then Free else b.role[p])
  }

  lemma FreedAll(m: Memory, head: nat, b: Book, c: Book, d: Book, root: nat, n: nat)
    requires Inv(m, head, b) && Unmaps(b, c, root, 0, n, Free) && CutOff(c, d, Top(root))
    requires forall v :: v in b.flat[root] ==> v < n
    ensures Freed(b, d, root)
  {
    assert Cut(b.flat, root, 0, n) - {root} == b.flat - {root};
    forall p | p in b.role
      ensures d.role[p] == if Owned(b.role[p], root) then Free else b.role[p]
    {
      assert RoleOk(b, p);
      assert c.role[p] == if UserIn(b.role[p], root, 0, n) then Free else b.role[p];
    }
  }

  lemma NoneLeft(b: Book, c: Book, root: nat, n: nat)
    requires Unmaps(b, c, root, 0, n, Free) && forall v :: v in b.flat[root] ==> v < n
    ensures NoLeafUnder(c, Top(root))
  {
    assert c.flat[root].Keys == {};
  }

  lemma KeptThenSame(m: Memory, b: Book, n: Memory, c: Book, o: Memory, d: Book, root: nat)
    requires KeptData(m, b, n, c) && SameData(n, c, o) && CutOff(c, d, Top(root))
    requires c.role.Keys == b.role.Keys == m.Keys
    requires forall p {:trigger c.role[p]} :: p in b.role ==> c.role[p] == Free || c.role[p] == b.role[p]
    ensures KeptData(m, b, o, d)
  {
    forall p | p in m && !b.role[p].Free? && !b.role[p].Interior? && !d.role[p].Free?
      ensures o[p] == m[p]
    {
      assert c.role[p] == b.role[p];
      assert n[p] == m[p];
    }
  }

  function TrampolinePte(p: nat): Pte { Pte(true, Flags(true, false, true, false, 0), p) }
  function TrapframePte(p: nat): Pte { Pte(true, Flags(true, true, false, false, 0), p) }

  function TrampolineMap(trampoline: nat): map<nat, Pte> {
    map[VTRAMPOLINE := TrampolinePte(trampoline)]
  }

  /** What a process's table maps beside user memory. */
  function KernelMap(trampoline: nat, trapframe: nat): map<nat, Pte> {
    TrampolineMap(trampoline)[VTRAPFRAME := TrapframePte(trapframe)]
  }

  /** root is a new table with contents f, on pages that were free. */
  ghost predicate NewTable(b: Book, c: Book, root: nat, f: map<nat, Pte>) {
    && root !in b.flat && c.flat == b.flat[root := f] && c.role.Keys == b.role.Keys
    && (forall p {:trigger c.role[p]} :: p in b.role ==> !Owned(b.role[p], root) && RoleGrown(b, c, root, p))
  }

  lemma NewTableStart(m: Memory, head: nat, b: Book, root: nat)
    requires Inv(m, head, b) && b.free != [] && b.free[0] == root && root in b.role && b.role[root] == Free
    requires root !in b.flat
    ensures NewTable(b, WithTop(Popped(b), root), root, map[])
  {
    var c := WithTop(Popped(b), root);
    forall p | p in b.role
      ensures !Owned(b.role[p], root) && RoleGrown(b, c, root, p)
    {
      assert RoleOk(b, p);
      if b.role[p].Interior? {
        assert DirOk(m, b, b.role[p].dir);
      }
    }
  }

  lemma NewTableMaps(b: Book, c: Book, d: Book, root: nat, f: map<nat, Pte>, vpn: nat, p: nat, flags: Flags)
    requires NewTable(b, c, root, f) && Special(vpn) && MapsTo(c, d, root, vpn, p, flags, 1)
    ensures NewTable(b, d, root, f[vpn := Pte(true, flags, p)])
  {
    RangeOne(f, vpn, p, flags);
    assert d.flat == b.flat[root := f + Range(vpn, p, flags, 1)];
    forall q | q in b.role
      ensures RoleGrown(b, d, root, q)
    {
      assert !Backs(q, vpn, p, 1);
      assert RoleGrown(b, c, root, q) && RoleGrown(c, d, root, q);
    }
  }

  lemma NewTableStays(b: Book, c: Book, d: Book, root: nat, f: map<nat, Pte>, vpn: nat, p: nat, flags: Flags)
    requires NewTable(b, c, root, f) && MapsTo(c, d, root, vpn, p, flags, 0)
    ensures NewTable(b, d, root, f)
  {
    assert f + Range(vpn, p, flags, 0) == f;
    assert d.flat == b.flat[root := f + Range(vpn, p, flags, 0)];
    forall q | q in b.role
      ensures RoleGrown(b, d, root, q)
    {
      assert RoleGrown(b, c, root, q) && RoleGrown(c, d, root, q);
    }
  }

  ghost predicate SpecialGone(b: Book, c: Book, root: nat, vpn: nat) {
    root in b.flat && c.role == b.role && c.flat == b.flat[root := b.flat[root] - {vpn}]
  }

  /** Taking a special page out of the table leaves every page its role. */
  lemma UnmapsSpecial(m: Memory, head: nat, b: Book, c: Book, root: nat, vpn: nat)
    requires Inv(m, head, b) && Special(vpn) && Unmaps(b, c, root, vpn, 1, Held)
    ensures SpecialGone(b, c, root, vpn)
  {
    assert c.flat[root] == b.flat[root] - {vpn};
    forall p | p in b.role
      ensures c.role[p] == b.role[p]
    {
      assert RoleOk(b, p);
    }
  }

  lemma NewTableUnmapped(m: Memory, b: Book, n: Memory, c: Book, o: Memory, d: Book, root: nat, p: nat)
    requires NewTable(b, c, root, TrampolineMap(p)) && SameData(m, b, n) && m.Keys == b.role.Keys
    requires SpecialGone(c, d, root, VTRAMPOLINE) && KeptData(n, c, o, d)
    ensures NewTable(b, d, root, map[]) && SameData(m, b, o)
  {
    assert TrampolineMap(p) - {VTRAMPOLINE} == map[];
    forall p | p in b.role
      ensures !Owned(b.role[p], root) && RoleGrown(b, d, root, p)
    {
      assert RoleGrown(b, c, root, p);
    }
    forall p | p in m && !b.role[p].Free? && !b.role[p].Interior?
      ensures o[p] == m[p]
    {
      assert RoleGrown(b, c, root, p);
      assert n[p] == m[p];
    }
  }

  lemma NewTableData(m: Memory, b: Book, n: Memory, c: Book, o: Memory, root: nat, f: map<nat, Pte>)
    requires NewTable(b, c, root, f) && SameData(m, b, n) && SameData(n, c, o) && m.Keys == b.role.Keys
    ensures SameData(m, b, o)
  {
    forall p | p in m && !b.role[p].Free? && !b.role[p].Interior?
      ensures o[p] == m[p]
    {
      assert RoleGrown(b, c, root, p);
      assert n[p] == m[p];
    }
  }

  /** A table that is made and freed again leaves nothing behind. */
  lemma MadeAndFreed(m: Memory, b: Book, n: Memory, c: Book, o: Memory, d: Book, root: nat, f: map<nat, Pte>)
    requires NewTable(b, c, root, f) && Freed(c, d, root) && SameData(m, b, n) && KeptData(n, c, o, d)
    ensures d.flat == b.flat && d.role == b.role && KeptData(m, b, o, d)
  {
    assert (b.flat[root := f]) - {root} == b.flat;
    forall p | p in b.role
      ensures d.role[p] == b.role[p]
    {
      assert RoleGrown(b, c, root, p);
    }
  }

  // ---------- conservation ----------

  /** No page is in two places, and none is lost: page-table pages, mapped pages of all tables and
      the free list are disjoint and name a page at most once; every other page is held. */
  lemma TablePagesDiffer(m: Memory, head: nat, b: Book, k: Dir, l: Dir)
    requires Inv(m, head, b) && k in b.dirs && l in b.dirs
    ensures b.dirs[k] in m && b.dirs[k] !in b.free
    ensures b.dirs[k] == b.dirs[l] ==> k == l
  {
    assert DirOk(m, b, k) && DirOk(m, b, l);
    FreePagesAreFree(m, head, b, b.dirs[k]);
  }

  lemma FreePagesAreFree(m: Memory, head: nat, b: Book, p: nat)
    requires Inv(m, head, b)
    ensures p in b.free <==> p in b.role && b.role[p] == Free
  {
    if p in b.free {
      var i :| 0 <= i < |b.free| && b.free[i] == p;
      assert FreeAt(m, b, i);
    }
  }

  lemma MappedPagesDiffer(m: Memory, head: nat, b: Book, r: nat, v: nat, s: nat, w: nat, k: Dir)
    requires Inv(m, head, b) && r in b.flat && v in b.flat[r] && !Special(v)
    ensures b.flat[r][v].ppn in m && b.flat[r][v].ppn !in b.free
    ensures k in b.dirs ==> b.flat[r][v].ppn != b.dirs[k]
    ensures s in b.flat && w in b.flat[s] && !Special(w) && b.flat[r][v].ppn == b.flat[s][w].ppn ==> r == s && v == w
  {
    assert LeafOk(m, b, r, v);
    FreePagesAreFree(m, head, b, b.flat[r][v].ppn);
    assert k in b.dirs ==> DirOk(m, b, k);
    assert s in b.flat && w in b.flat[s] ==> LeafOk(m, b, s, w);
  }

  ghost predicate BacksAPage(b: Book, p: nat) {
    exists r, v :: r in b.flat && v in b.flat[r] && !Special(v) && b.flat[r][v].ppn == p
  }

  lemma NoPageIsLost(m: Memory, head: nat, b: Book, p: nat)
    requires Inv(m, head, b) && p in m
    ensures p in b.free || b.role[p] == Held || (exists k :: k in b.dirs && b.dirs[k] == p) || BacksAPage(b, p)
  {
    assert RoleOk(b, p);
  }
}
