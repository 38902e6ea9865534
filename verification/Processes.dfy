/** Processes and their memory: allocproc, kfork, and any series of calls on any processes. Every process sees a flat
    array of bytes of its own, whatever pages are mapped for it. */
module Processes {
  import opened Sv39
  import opened PageTables
  import opened AddressSpaces
  import opened PageCosts
  import opened Vm
  import opened UserMemory
  import opened ProcessSize

  // ---------- allocproc ----------

  /** The table of root is new and maps the two kernel pages; trapframe and its page-table pages were free. */
  ghost predicate Born(b: Book, c: Book, root: nat, trampoline: nat, trapframe: nat) {
    && root !in b.flat && c.flat == b.flat[root := KernelMap(trampoline, trapframe)] && c.role.Keys == b.role.Keys
    && trapframe in b.role && b.role[trapframe] == Free && IsHeld(c, trapframe)
    && (forall p {:trigger c.role[p]} :: p in b.role ==>
          && !Owned(b.role[p], root)
          && (p == trapframe || c.role[p] == b.role[p] || (b.role[p] == Free && Owned(c.role[p], root))))
  }

  lemma BornSpace(b: Book, c: Book, root: nat, trampoline: nat, trapframe: nat)
    requires Born(b, c, root, trampoline, trapframe)
    ensures Aside(b, c, root, trapframe) && Space(c, root, trapframe, 0) && ProcTable(c, root, 0)
  {
  }

  /** The trapframe page is taken first, and then the table made. */
  lemma BornFrom(m: Memory, head: nat, b: Book, c: Book, d: Book, root: nat, trampoline: nat, trapframe: nat)
    requires Inv(m, head, b) && b.free != [] && trapframe == b.free[0] && c == Popped(b)
    requires NewTable(c, d, root, KernelMap(trampoline, trapframe))
    ensures Born(b, d, root, trampoline, trapframe)
  {
    FreePagesAreFree(m, head, b, trapframe);
    forall p | p in b.role
      ensures !Owned(b.role[p], root)
      ensures p == trapframe || d.role[p] == b.role[p] || (b.role[p] == Free && Owned(d.role[p], root))
    {
      assert !Owned(c.role[p], root) && RoleGrown(c, d, root, p);
    }
    assert RoleGrown(c, d, root, trapframe);
  }

  /** No byte that a process sees has changed. */
  ghost predicate SameBytes(m: Memory, b: Book, n: Memory, c: Book) {
    Wrote(m, b, n, c, 0, 0, [])
  }

  /** Pages held before and after are held in between. */
  ghost predicate HeldBetween(b: Book, c: Book, d: Book) {
    forall p: nat {:trigger IsHeld(c, p)} :: IsHeld(b, p) && IsHeld(d, p) ==> IsHeld(c, p)
  }

  lemma SameBytesTwice(m: Memory, b: Book, n: Memory, c: Book, o: Memory, d: Book)
    requires SameBytes(m, b, n, c) && SameBytes(n, c, o, d) && b.flat.Keys <= c.flat.Keys && HeldBetween(b, c, d)
    ensures SameBytes(m, b, o, d)
  {
    forall r: nat, va: nat | r in b.flat && va < TRAPFRAME
      ensures UByte(o, d, r, va) == UByte(m, b, r, va)
    {
      assert UByte(n, c, r, va) == UByte(m, b, r, va);
    }
  }

  /** User pages keep their contents while page-table pages and kernel pages come and go. */
  lemma KeptBytes(m: Memory, head: nat, b: Book, n: Memory, c: Book)
    requires Inv(m, head, b) && KeptData(m, b, n, c) && c.role.Keys == b.role.Keys
    requires forall r {:trigger r in c.flat} {:trigger c.flat[r]} :: r in b.flat ==>
               r in c.flat && c.flat[r] == b.flat[r]
    requires forall p {:trigger c.role[p]} :: p in b.role && b.role[p].User? ==> c.role[p] == b.role[p]
    ensures SameBytes(m, b, n, c)
  {
    forall r: nat, va: nat | r in b.flat && va < TRAPFRAME
      ensures UByte(n, c, r, va) == UByte(m, b, r, va)
    {
      assert r in c.flat;
      if va / PGSIZE in b.flat[r] {
        assert LeafOk(m, b, r, va / PGSIZE);
        assert n[b.flat[r][va / PGSIZE].ppn] == m[b.flat[r][va / PGSIZE].ppn];
      }
    }
  }

  lemma TakenBytes(m: Memory, head: nat, b: Book, x: Page, n: Memory, c: Book)
    requires Inv(m, head, b) && b.free != [] && b.free[0] in m && c == Popped(b) && n == m[b.free[0] := x]
    ensures SameBytes(m, b, n, c) && KeptData(m, b, n, c)
  {
    FreePagesAreFree(m, head, b, b.free[0]);
    KeptBytes(m, head, b, n, c);
  }

  /** What a new process has taken from the free list: its trapframe page, and the three pages of its table. */
  ghost predicate ProcMade(b: Book, c: Book, root: nat, trapframe: nat) {
    && |b.free| >= 4 && trapframe == b.free[0] && root == b.free[1] && |c.free| == |b.free| - 4
    && c.dirs.Keys == b.dirs.Keys + {Top(root)} + PathTo(root, VTRAMPOLINE)
  }

  method AllocTrapframe(k: Kernel) returns (p: nat)
    requires k.Valid()
    modifies k
    ensures k.Valid() && SameBytes(old(k.mem), old(k.book), k.mem, k.book) && (p == 0 <==> old(k.book.free) == [])
    ensures p == 0 ==> k.book == old(k.book)
    ensures p != 0 ==> p == old(k.book.free)[0] && k.book == Popped(old(k.book))
  {
    ghost var m, head, b := k.mem, k.freelist, k.book;
    p := k.KAlloc();
    if p == 0 {
      KeptBytes(m, head, b, m, b);
    } else {
      TakePage(m, head, b, k.mem[p]);
      TakenBytes(m, head, b, k.mem[p], k.mem, k.book);
    }
  }

  lemma BirthComplete(m: Memory, head: nat, b: Book, n: Memory, head': nat, c: Book, o: Memory, d: Book, root: nat,
                      trampoline: nat, trapframe: nat)
    requires Inv(m, head, b) && Inv(n, head', c) && b.free != [] && trapframe == b.free[0] && c == Popped(b)
    requires SameBytes(m, b, n, c) && KeptData(n, c, o, d)
    requires NewTable(c, d, root, KernelMap(trampoline, trapframe)) && TableMade(c, d, root)
    ensures SameBytes(m, b, o, d) && Born(b, d, root, trampoline, trapframe)
    ensures Space(d, root, trapframe, 0) && ProcMade(b, d, root, trapframe)
  {
    BornFrom(m, head, b, c, d, root, trampoline, trapframe);
    BornSpace(b, d, root, trampoline, trapframe);
    TableBytes(n, head', c, o, d, root, KernelMap(trampoline, trapframe));
    SameBytesTwice(m, b, n, c, o, d);
  }

  /** freeproc of a process that has a trapframe page and no table. */
  method FreeTrapframe(k: Kernel, trapframe: nat, ghost m: Memory, ghost b: Book, ghost m1: Memory, ghost head1: nat,
                       ghost b1: Book)
    requires k.Valid() && Inv(m1, head1, b1) && SameBytes(m, b, m1, b1) && KeptData(m1, b1, k.mem, k.book)
    requires k.book.flat == b1.flat && k.book.role == b1.role && b.free != [] && trapframe == b.free[0]
    requires b1 == Popped(b) && trapframe in b.role && b.role[trapframe] == Free
    modifies k
    ensures k.Valid() && SameBytes(m, b, k.mem, k.book) && k.book.flat == b.flat && k.book.role == b.role
  {
    KeptBytes(m1, head1, b1, k.mem, k.book);
    SameBytesTwice(m, b, m1, b1, k.mem, k.book);
    ghost var m2, head2, b2 := k.mem, k.freelist, k.book;
    GiveBack(m2, head2, b2, trapframe);
    k.KFree(trapframe);
    KeptBytes(m2, head2, b2, k.mem, k.book);
    SameBytesTwice(m, b, m2, b2, k.mem, k.book);
  }

  /** allocproc's part in memory: a trapframe page and a table with the two kernel pages, or nothing. */
  method AllocProc(k: Kernel, trampoline: nat) returns (p: Process?)
    requires k.Valid()
    modifies k
    ensures k.Valid() && SameBytes(old(k.mem), old(k.book), k.mem, k.book)
    ensures p == null <==> |old(k.book.free)| < 4
    ensures p == null ==> k.book.flat == old(k.book.flat) && k.book.role == old(k.book.role)
    ensures p != null ==> fresh(p) && p.sz == 0 && p.Owns(k)
    ensures p != null ==> Born(old(k.book), k.book, p.root, trampoline, p.trapframe)
    ensures p != null ==> ProcMade(old(k.book), k.book, p.root, p.trapframe)
  {
    ghost var m, head, b := k.mem, k.freelist, k.book;
    var trapframe := AllocTrapframe(k);
    if trapframe == 0 {
      return null;
    }
    ghost var m1, head1, b1 := k.mem, k.freelist, k.book;
    FreePagesAreFree(m, head, b, trapframe);
    var root := k.ProcPagetable(trampoline, trapframe);
    if root == 0 {
      FreeTrapframe(k, trapframe, m, b, m1, head1, b1);
      return null;
    }
    BirthComplete(m, head, b, m1, head1, b1, k.mem, k.book, root, trampoline, trapframe);
    p := new Process(root, trapframe, 0);
  }

  lemma TableBytes(m: Memory, head: nat, b: Book, n: Memory, c: Book, root: nat, f: map<nat, Pte>)
    requires Inv(m, head, b) && NewTable(b, c, root, f) && KeptData(m, b, n, c)
    ensures SameBytes(m, b, n, c)
  {
    forall p | p in b.role && b.role[p].User?
      ensures c.role[p] == b.role[p]
    {
      assert RoleGrown(b, c, root, p);
    }
    KeptBytes(m, head, b, n, c);
  }

  // ---------- kfork ----------

  /** kfork finds memory: for the trapframe page and the table of the child, for a copy of each page of the parent and
      for the page-table pages that are then missing, and for some pages more. */
  ghost predicate ForkFits(b: Book, root: nat, sz: nat, more: nat) {
    && |b.free| >= 4 && root in b.flat
    && var vs := ToCopy(b, root, FirstPage(sz));
       |b.free| >= 4 + |vs| + |PathsTo(b.free[1], vs) - PathTo(b.free[1], VTRAMPOLINE)| + more
  }

  /** The condition of uvmcopy after allocproc. */
  lemma ForkPays(m: Memory, head: nat, b: Book, c: Book, root: nat, child: nat, trapframe: nat, sz: nat, ok: bool,
                 panicked: bool)
    requires Inv(m, head, b) && child !in b.flat && root in b.flat && root in c.flat && c.flat[root] == b.flat[root]
    requires ProcMade(b, c, child, trapframe) && CopyEnds(c, root, child, FirstPage(sz), ok, panicked)
    ensures ok <==> FirstPage(sz) <= VTRAPFRAME && ForkFits(b, root, sz, 0)
    ensures panicked <==> FirstPage(sz) > VTRAPFRAME && ForkFits(b, root, sz, 1)
  {
    var vs := ToCopy(b, root, FirstPage(sz));
    forall d | d in PathsTo(child, vs)
      ensures d !in b.dirs && d != Top(child)
    {
      assert d in b.dirs ==> DirOk(m, b, d);
    }
    assert PathsTo(child, vs) - c.dirs.Keys == PathsTo(child, vs) - PathTo(child, VTRAMPOLINE);
  }

  /** The child sees the bytes of the parent, and may do with each page what the parent may. */
  ghost predicate Twin(m: Memory, b: Book, n: Memory, c: Book, root: nat, child: nat) {
    && root in b.flat && child in c.flat
    && (forall va: nat {:trigger UByte(n, c, child, va)} :: va < TRAPFRAME ==>
          UByte(n, c, child, va) == UByte(m, b, root, va))
    && (forall v {:trigger v in c.flat[child]} {:trigger v in b.flat[root]} :: !Special(v) ==>
          (v in c.flat[child] <==> v in b.flat[root])
          && (v in b.flat[root] ==> c.flat[child][v].flags == b.flat[root][v].flags))
  }

  lemma CopiedTwin(m: Memory, head: nat, b: Book, n: Memory, c: Book, root: nat, trapframe: nat, sz: nat, child: nat)
    requires Inv(m, head, b) && Copied(m, b, n, c, root, child, FirstPage(sz)) && root != child
    requires Space(b, root, trapframe, sz) && ProcTable(b, child, 0) && FirstPage(sz) <= VTRAPFRAME
    ensures Twin(m, b, n, c, root, child)
  {
    assert forall v :: v in Below(b.flat[root], FirstPage(sz)) <==> v in b.flat[root] && v < FirstPage(sz);
    forall v | !Special(v)
      ensures v in c.flat[child] <==> v in b.flat[root]
      ensures v in b.flat[root] ==> CopyAt(m, b, n, c, root, child, v)
    {
    }
    forall va: nat | va < TRAPFRAME
      ensures UByte(n, c, child, va) == UByte(m, b, root, va)
    {
      assert !Special(va / PGSIZE);
    }
  }

  lemma CopiedSpace(m: Memory, b: Book, n: Memory, c: Book, root: nat, sz: nat, child: nat, trapframe: nat)
    requires Copied(m, b, n, c, root, child, FirstPage(sz)) && FirstPage(sz) <= VTRAPFRAME
    requires Space(b, child, trapframe, 0)
    ensures Space(c, child, trapframe, sz) && Aside(b, c, child, trapframe)
  {
    assert forall v :: v in Below(b.flat[root], FirstPage(sz)) ==> v < FirstPage(sz);
  }

  /** m0 and b0 are from before the child was made. */
  lemma CopiedBytes(m0: Memory, b0: Book, m: Memory, head: nat, b: Book, n: Memory, c: Book, root: nat, child: nat,
                    count: nat)
    requires Inv(m, head, b) && Copied(m, b, n, c, root, child, count) && SameBytes(m0, b0, m, b)
    requires child !in b0.flat && b0.flat.Keys <= b.flat.Keys
    ensures SameBytes(m0, b0, n, c)
  {
    forall r: nat, va: nat | r in b0.flat && va < TRAPFRAME
      ensures UByte(n, c, r, va) == UByte(m0, b0, r, va)
    {
      assert UByte(m, b, r, va) == UByte(m0, b0, r, va);
      if va / PGSIZE in b.flat[r] {
        assert LeafOk(m, b, r, va / PGSIZE);
        assert RoleGrown(b, c, child, b.flat[r][va / PGSIZE].ppn);
        assert n[b.flat[r][va / PGSIZE].ppn] == m[b.flat[r][va / PGSIZE].ppn];
      }
    }
  }

  /** A child that is freed again leaves nothing behind. */
  lemma Unborn(b: Book, c: Book, d: Book, e: Book, child: nat, trampoline: nat, trapframe: nat)
    requires Born(b, c, child, trampoline, trapframe) && Grown(c, d, child) && Released(d, e, child, trapframe)
    ensures e.flat == b.flat && e.role == b.role
  {
    assert (b.flat[child := KernelMap(trampoline, trapframe)]) - {child} == b.flat;
    forall p | p in b.role
      ensures e.role[p] == b.role[p]
    {
      assert c.role[p] == d.role[p] || c.role[p] == Free;
    }
  }

  /** freeproc of a child whose memory could not be copied. */
  method FreeChild(k: Kernel, child: Process, trampoline: nat, ghost m0: Memory, ghost b0: Book, ghost b1: Book)
    requires child.Owns(k) && child.sz == 0 && Born(b0, b1, child.root, trampoline, child.trapframe)
    requires Grown(b1, k.book, child.root) && SameBytes(m0, b0, k.mem, k.book)
    modifies k
    ensures k.Valid() && SameBytes(m0, b0, k.mem, k.book) && k.book.flat == b0.flat && k.book.role == b0.role
  {
    ghost var m, b := k.mem, k.book;
    child.FreeProc(k);
    Unborn(b0, b1, b, k.book, child.root, trampoline, child.trapframe);
    forall r: nat, va: nat | r in b0.flat && va < TRAPFRAME
      ensures UByte(k.mem, k.book, r, va) == UByte(m0, b0, r, va)
    {
      assert UByte(m, b, r, va) == UByte(m0, b0, r, va);
    }
  }

  lemma GrownSame(m0: Memory, b0: Book, m: Memory, head: nat, b: Book, n: Memory, c: Book, root: nat)
    requires Inv(m, head, b) && Grown(b, c, root) && SameData(m, b, n) && SameBytes(m0, b0, m, b)
    requires b0.flat.Keys <= b.flat.Keys
    ensures SameBytes(m0, b0, n, c)
  {
    GrownBytes(m, head, b, n, c, root, 0);
    SameBytesTwice(m0, b0, m, b, n, c);
  }

  /** The child is new, on pages that were free, and its memory is a copy of that of root. */
  ghost predicate Offspring(m: Memory, b: Book, n: Memory, c: Book, root: nat, child: nat, trapframe: nat) {
    && child !in b.flat && trapframe in b.free && Aside(b, c, child, trapframe)
    && Twin(m, b, n, c, root, child)
  }

  /** kfork's part in memory: a child of the same size whose memory is a copy of the parent's, or nothing changes. */
  method Fork(k: Kernel, parent: Process, trampoline: nat) returns (child: Process?, panicked: bool)
    requires parent.Owns(k)
    modifies k
    ensures !panicked ==> parent.Owns(k) && SameBytes(old(k.mem), old(k.book), k.mem, k.book)
    ensures child != null ==> fresh(child) && child.Owns(k) && child.sz == parent.sz
    ensures child != null ==>
              Offspring(old(k.mem), old(k.book), k.mem, k.book, parent.root, child.root, child.trapframe)
    ensures child == null && !panicked ==> k.book.flat == old(k.book.flat) && k.book.role == old(k.book.role)
    ensures child != null <==> FirstPage(parent.sz) <= VTRAPFRAME && ForkFits(old(k.book), parent.root, parent.sz, 0)
    ensures panicked <==> FirstPage(parent.sz) > VTRAPFRAME && ForkFits(old(k.book), parent.root, parent.sz, 1)
  {
    ghost var m0, head0, b0 := k.mem, k.freelist, k.book;
    child := AllocProc(k, trampoline);
    panicked := false;
    if child != null {
      ghost var b1 := k.book;
      var ok;
      ok, panicked := CopyToChild(k, parent, child, trampoline, m0, head0, b0);
      ForkPays(m0, head0, b0, b1, parent.root, child.root, child.trapframe, parent.sz, ok, panicked);
      if !ok {
        child := null;
      }
    }
  }

  /** kfork after allocproc. */
  method CopyToChild(k: Kernel, parent: Process, child: Process, trampoline: nat, ghost m0: Memory, ghost head0: nat,
                     ghost b0: Book)
    returns (ok: bool, panicked: bool)
    requires child.Owns(k) && child.sz == 0 && child != parent
    requires Inv(m0, head0, b0) && Space(b0, parent.root, parent.trapframe, parent.sz)
    requires Born(b0, k.book, child.root, trampoline, child.trapframe) && SameBytes(m0, b0, k.mem, k.book)
    modifies k, child
    ensures panicked ==> !ok
    ensures !panicked ==> parent.Owns(k) && SameBytes(m0, b0, k.mem, k.book)
    ensures ok ==> child.Owns(k) && child.sz == parent.sz
    ensures ok ==> Offspring(m0, b0, k.mem, k.book, parent.root, child.root, child.trapframe)
    ensures !ok && !panicked ==> k.book.flat == b0.flat && k.book.role == b0.role
    ensures CopyEnds(old(k.book), parent.root, child.root, FirstPage(parent.sz), ok, panicked)
  {
    ghost var m1, head1, b1 := k.mem, k.freelist, k.book;
    BornSpace(b0, b1, child.root, trampoline, child.trapframe);
    ok, panicked := k.UvmCopy(parent.root, child.root, parent.sz);
    if panicked {
      return;
    }
    if ok {
      Forked(m0, head0, b0, m1, head1, b1, k.mem, k.book, parent.root, parent.trapframe, parent.sz, child.root,
             trampoline, child.trapframe);
      child.sz := parent.sz;
    } else {
      GrownSame(m0, b0, m1, head1, b1, k.mem, k.book, child.root);
      FreeChild(k, child, trampoline, m0, b0, b1);
    }
  }

  lemma Forked(m0: Memory, head0: nat, b0: Book, m: Memory, head: nat, b: Book, n: Memory, c: Book, root: nat,
               frame: nat, sz: nat, child: nat, trampoline: nat, trapframe: nat)
    requires Inv(m0, head0, b0) && Inv(m, head, b) && Born(b0, b, child, trampoline, trapframe)
    requires Space(b0, root, frame, sz) && SameBytes(m0, b0, m, b)
    requires Copied(m, b, n, c, root, child, FirstPage(sz)) && FirstPage(sz) <= VTRAPFRAME
    ensures SameBytes(m0, b0, n, c) && Offspring(m0, b0, n, c, root, child, trapframe)
    ensures Space(c, child, trapframe, sz) && Space(c, root, frame, sz)
  {
    FreePagesAreFree(m0, head0, b0, trapframe);
    BornSpace(b0, b, child, trampoline, trapframe);
    AsideSpace(b0, b, child, trapframe, root, frame, sz);
    CopiedBytes(m0, b0, m, head, b, n, c, root, child, FirstPage(sz));
    CopiedTwin(m, head, b, n, c, root, frame, sz, child);
    CopiedSpace(m, b, n, c, root, sz, child, trapframe);
    AsideTwice(b0, b, c, child, trapframe);
    AsideSpace(b0, c, child, trapframe, root, frame, sz);
    forall va: nat | va < TRAPFRAME
      ensures UByte(n, c, child, va) == UByte(m0, b0, root, va)
    {
      assert UByte(n, c, child, va) == UByte(m, b, root, va) == UByte(m0, b0, root, va);
    }
  }
}
