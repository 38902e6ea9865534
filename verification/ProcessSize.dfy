/** The size of a process, which sbrk changes: when it stays one that the page-table code can work with. */
module ProcessSize {
  import opened Sv39
  import opened PageTables
  import opened AddressSpaces
  import opened PageCosts
  import opened UserMemory
  import opened Vm

  const TWO31 := 0x8000_0000
  const TWO64 := 0x1_0000_0000_0000_0000

  /** The table holds user pages below sz, and the trampoline and the trapframe page, which the process holds. */
  ghost predicate Space(b: Book, root: nat, trapframe: nat, sz: nat) {
    && root in b.flat && IsHeld(b, trapframe)
    && VTRAMPOLINE in b.flat[root] && VTRAPFRAME in b.flat[root] && b.flat[root][VTRAPFRAME].ppn == trapframe
    && forall v {:trigger v in b.flat[root]} :: v in b.flat[root] ==>
         if Special(v) then KernelOnly(v, b.flat[root][v].flags) else v < RoundUp(sz) / PGSIZE
  }

  /** A size that keeps clear of the trapframe page is one that copyin and copyout can work with. */
  lemma SpaceIsProc(b: Book, root: nat, trapframe: nat, sz: nat)
    requires Space(b, root, trapframe, sz) && sz <= TRAPFRAME
    ensures ProcTable(b, root, sz)
  {
  }

  /** What a call for the process of root may do: pages move between the free list and its table, its trapframe page
      apart, and all other tables stay as they are. */
  ghost predicate Aside(b: Book, c: Book, root: nat, trapframe: nat) {
    && (forall r {:trigger r in c.flat} {:trigger c.flat[r]} :: r != root ==>
          (r in c.flat <==> r in b.flat) && (r in b.flat ==> c.flat[r] == b.flat[r]))
    && c.role.Keys == b.role.Keys
    && (forall p {:trigger c.role[p]} :: p in b.role && p != trapframe && c.role[p] != b.role[p] ==>
          (b.role[p] == Free || Owned(b.role[p], root)) && (c.role[p] == Free || Owned(c.role[p], root)))
  }

  /** Every other process still has its table, and its trapframe page. */
  lemma AsideSpace(b: Book, c: Book, other: nat, frame: nat, root: nat, trapframe: nat, sz: nat)
    requires Space(b, root, trapframe, sz) && Aside(b, c, other, frame) && other != root && frame != trapframe
    ensures Space(c, root, trapframe, sz)
  {
  }

  lemma AsideTwice(b: Book, c: Book, d: Book, root: nat, trapframe: nat)
    requires Aside(b, c, root, trapframe) && Aside(c, d, root, trapframe)
    ensures Aside(b, d, root, trapframe)
  {
    forall p | p in b.role && p != trapframe && d.role[p] != b.role[p]
      ensures (b.role[p] == Free || Owned(b.role[p], root)) && (d.role[p] == Free || Owned(d.role[p], root))
    {
      assert c.role[p] == b.role[p] || c.role[p] != b.role[p];
    }
  }

  /** A fault, a copyin or a copyout. */
  lemma FaultedSpace(b: Book, c: Book, root: nat, trapframe: nat, sz: nat)
    requires Space(b, root, trapframe, sz) && Faulted(b, c, root) && ProcTable(c, root, sz)
    ensures Space(c, root, trapframe, sz) && Aside(b, c, root, trapframe)
  {
  }

  // ---------- what a process sees ----------

  /** The bytes of root from lim on read as zero, and no other byte of any process or of the kernel's pages has
      changed. */
  ghost predicate CutBytes(m: Memory, b: Book, n: Memory, c: Book, root: nat, lim: nat) {
    HeldKept(m, b, n, c) &&
    forall r: nat, va: nat {:trigger UByte(n, c, r, va)} :: r in b.flat && va < TRAPFRAME ==>
      UByte(n, c, r, va) == if r == root && va >= lim then 0 else UByte(m, b, r, va)
  }

  /** What sbrk does to the bytes that processes see. New bytes are zero, which is what they were before: eager and lazy
      growth are the same to a process. */
  ghost predicate Resized(m: Memory, b: Book, n: Memory, c: Book, root: nat, smaller: bool, sz: nat) {
    if smaller then CutBytes(m, b, n, c, root, RoundUp(sz)) else Wrote(m, b, n, c, root, 0, [])
  }

  /** All bytes from lim up to size newsz can be written. */
  ghost predicate WritableUpTo(b: Book, root: nat, lim: nat, newsz: nat) {
    forall va: nat {:trigger WritableAt(b, root, va)} :: lim <= va < newsz ==> WritableAt(b, root, va)
  }

  /** New pages of zeros are what the process saw there before. */
  lemma GrewBytes(m: Memory, head: nat, b: Book, n: Memory, c: Book, root: nat, oldsz: nat, newsz: nat)
    requires Inv(m, head, b) && Grew(m, b, n, c, root, oldsz, newsz, Flags(true, true, false, true, 0))
    requires oldsz <= newsz && (newsz <= TRAPFRAME || newsz <= RoundUp(oldsz))
    requires forall v {:trigger v in b.flat[root]} :: FirstPage(oldsz) <= v && !Special(v) ==> v !in b.flat[root]
    ensures Wrote(m, b, n, c, root, 0, []) && WritableUpTo(c, root, RoundUp(oldsz), newsz)
  {
    Span(oldsz, newsz);
    var vpn, count := FirstPage(oldsz), PagesBetween(oldsz, newsz);
    forall v | vpn <= v < vpn + count
      ensures ZeroAt(n, c, root, v, Flags(true, true, false, true, 0))
    {
    }
    forall r: nat, va: nat | r in b.flat && va < TRAPFRAME
      ensures UByte(n, c, r, va) == UByte(m, b, r, va)
    {
      var v := va / PGSIZE;
      assert v in b.flat[r] ==> LeafOk(m, b, r, v);
      assert r == root && vpn <= v < vpn + count ==> ZeroAt(n, c, root, v, Flags(true, true, false, true, 0));
    }
    forall va: nat | RoundUp(oldsz) <= va < newsz
      ensures WritableAt(c, root, va)
    {
      assert vpn <= va / PGSIZE < vpn + count;
      assert ZeroAt(n, c, root, va / PGSIZE, Flags(true, true, false, true, 0));
    }
  }

  /** The pages taken away read as zero. */
  lemma ShrunkBytes(m: Memory, head: nat, b: Book, n: Memory, c: Book, root: nat, trapframe: nat, sz: nat, newsz: nat)
    requires Inv(m, head, b) && Space(b, root, trapframe, sz) && newsz <= sz <= TRAMPOLINE && KeptData(m, b, n, c)
    requires UnmapsAny(b, c, root, RoundUp(newsz) / PGSIZE, (RoundUp(sz) - RoundUp(newsz)) / PGSIZE, Free)
    ensures CutBytes(m, b, n, c, root, RoundUp(newsz))
  {
    var vpn, count := RoundUp(newsz) / PGSIZE, (RoundUp(sz) - RoundUp(newsz)) / PGSIZE;
    assert vpn + count == RoundUp(sz) / PGSIZE;
    forall r: nat, va: nat | r in b.flat && va < TRAPFRAME
      ensures UByte(n, c, r, va) == if r == root && va >= RoundUp(newsz) then 0 else UByte(m, b, r, va)
    {
      var v := va / PGSIZE;
      assert va >= RoundUp(newsz) <==> v >= vpn;
      assert v in b.flat[r] ==> LeafOk(m, b, r, v);
    }
  }

  class Process {
    const root: nat
    const trapframe: nat
    var sz: nat

    constructor (root: nat, trapframe: nat, sz: nat)
      ensures this.root == root && this.trapframe == trapframe && this.sz == sz
    {
      this.root, this.trapframe, this.sz := root, trapframe, sz;
    }

    ghost predicate Owns(k: Kernel)
      reads this, k
    {
      k.Valid() && Space(k.book, root, trapframe, sz)
    }

    /** The size keeps clear of the trapframe page. */
    ghost predicate Fits(k: Kernel)
      reads this, k
    {
      Owns(k) && sz <= TRAPFRAME
    }

    /** uvmalloc has failed when it returns 0. */
    method Larger(k: Kernel, newsz: nat) returns (ok: bool, panicked: bool)
      requires Owns(k) && sz <= TRAMPOLINE && sz < newsz
      modifies k
      ensures k.Valid() && (panicked ==> !ok && newsz > TRAPFRAME)
      ensures ok ==> Space(k.book, root, trapframe, newsz) && (newsz <= TRAPFRAME || newsz <= RoundUp(sz))
      ensures !ok && !panicked ==> Space(k.book, root, trapframe, sz)
      ensures GrowthEnds(old(k.book), root, sz, newsz, ok, panicked)
      ensures !panicked ==> Wrote(old(k.mem), old(k.book), k.mem, k.book, root, 0, [])
      ensures !panicked ==> Aside(old(k.book), k.book, root, trapframe)
      ensures ok ==> WritableUpTo(k.book, root, RoundUp(sz), newsz)
    {
      ghost var m, head, b := k.mem, k.freelist, k.book;
      CanGrow(b, root, trapframe, sz, newsz);
      var s, done;
      s, done, panicked := k.UvmAlloc(root, sz, newsz, true, false);
      if panicked {
        return false, true;
      }
      ok := done;
      assert s != 0 <==> ok;
      if ok {
        HasGrown(m, head, b, k.mem, k.book, root, trapframe, sz, newsz);
      } else {
        NotGrown(m, head, b, k.mem, k.book, root, trapframe, sz);
      }
    }

    method Smaller(k: Kernel, newsz: nat) returns (s: nat)
      requires Owns(k) && sz <= TRAMPOLINE
      modifies k
      ensures k.Valid() && s == if newsz < sz then newsz else sz
      ensures if s <= TRAPFRAME < sz then Lost(k.book, root, trapframe) else Space(k.book, root, trapframe, s)
      ensures CutBytes(old(k.mem), old(k.book), k.mem, k.book, root, RoundUp(s))
      ensures Aside(old(k.book), k.book, root, trapframe)
    {
      ghost var m, head, b := k.mem, k.freelist, k.book;
      CanShrink(k.book, root, trapframe, sz, newsz);
      s := k.UvmDealloc(root, sz, newsz);
      AfterShrink(m, head, b, k.mem, k.freelist, k.book, root, trapframe, sz, s);
    }

    /** Growing eagerly ends below the trapframe page, or fails, or panics; the new bytes are zero and can be written.
        Shrinking from above the trapframe page frees it. */
    method GrowProc(k: Kernel, n: int) returns (ok: bool, panicked: bool)
      requires Owns(k) && sz <= TRAMPOLINE && -TWO31 <= n < TWO31
      modifies this, k
      ensures k.Valid() && (panicked ==> n > 0 && old(sz) + n > TRAPFRAME)
      ensures !panicked && n <= 0 ==> ok
      ensures !panicked ==> sz == if ok && old(sz) + n >= 0 then old(sz) + n else old(sz)
      ensures ok && n > 0 ==> sz <= TRAPFRAME || sz <= RoundUp(old(sz))
      ensures n > 0 ==> GrowthEnds(old(k.book), root, old(sz), NewSize(old(sz), n), ok, panicked)
      ensures !panicked && !FreesTrapframe(old(sz), n) ==> Owns(k)
      ensures FreesTrapframe(old(sz), n) ==> Lost(k.book, root, trapframe)
      ensures !panicked ==> Resized(old(k.mem), old(k.book), k.mem, k.book, root, n < 0, sz)
      ensures !panicked ==> Aside(old(k.book), k.book, root, trapframe)
      ensures ok && n > 0 ==> WritableUpTo(k.book, root, RoundUp(old(sz)), sz)
    {
      NothingDone(k.mem, k.book, root, trapframe);
      var s, newsz := sz, NewSize(sz, n);
      if n > 0 {
        ok, panicked := Larger(k, newsz);
        if panicked || !ok {
          return;
        }
        s := newsz;
      } else if n < 0 {
        s := Smaller(k, newsz);
      }
      sz := s;
      return true, false;
    }

    /** Returns the old size, or -1. From a size below the trapframe page one call in all leads past it: growing lazily
        with addr + n above it. Shrinking from there frees the page under the process. */
    method Sbrk(k: Kernel, n: int, eager: bool) returns (r: int, panicked: bool)
      requires Owns(k) && sz <= TRAMPOLINE && -TWO31 <= n < TWO31
      modifies this, k
      ensures k.Valid() && (panicked ==> eager && n > 0 && old(sz) + n > TRAPFRAME)
      ensures !panicked ==> r == old(sz) || (r == -1 && eager && n > 0)
      ensures !panicked ==> sz == if r >= 0 && old(sz) + n >= 0 then old(sz) + n else old(sz)
      ensures !panicked && !FreesTrapframe(old(sz), n) ==> Owns(k)
      ensures !panicked && old(sz) <= TRAPFRAME ==> (Fits(k) <==> eager || old(sz) + n <= TRAPFRAME)
      ensures FreesTrapframe(old(sz), n) ==> Lost(k.book, root, trapframe)
      ensures !panicked ==> Resized(old(k.mem), old(k.book), k.mem, k.book, root, n < 0, sz)
      ensures !panicked ==> Aside(old(k.book), k.book, root, trapframe)
    {
      NothingDone(k.mem, k.book, root, trapframe);
      var addr := sz;
      if eager || n < 0 {
        var ok;
        ok, panicked := GrowProc(k, n);
        if panicked || !ok {
          return -1, panicked;
        }
      } else {
        if NewSize(addr, n) < addr {
          return -1, false;
        }
        LazySpace(k.book, root, trapframe, sz, sz + n);
        sz := NewSize(sz, n);
      }
      return addr, false;
    }

    /** As many lazy calls as it takes to come to the trapframe page. */
    method FillUp(k: Kernel)
      requires Fits(k)
      modifies this, k
      ensures Fits(k) && sz == TRAPFRAME
    {
      while sz < TRAPFRAME
        invariant Fits(k)
        decreases TRAPFRAME - sz
      {
        var r, panicked := Sbrk(k, if TRAPFRAME - sz < TWO31 then TRAPFRAME - sz else TWO31 - 1, false);
      }
    }

    /** Any process can make sbrk free the trapframe page that it still holds: it grows lazily to the trampoline page
        and then gives one page back. The page is not mapped any more when the process returns to user space, which
        faults in the trampoline; if it is killed in that call and exits, freeproc frees the page a second time. */
    method LoseTrapframe(k: Kernel)
      requires Fits(k)
      modifies this, k
      ensures k.Valid() && sz == TRAPFRAME && Lost(k.book, root, trapframe)
    {
      FillUp(k);
      var r, panicked := Sbrk(k, PGSIZE, false);
      r, panicked := Sbrk(k, -PGSIZE, false);
    }

    /** freeproc: the trapframe page and then the table, every page once. The size may be any that walk accepts. */
    method FreeProc(k: Kernel)
      requires Owns(k) && RoundUp(sz) <= MAXVA
      modifies k
      ensures k.Valid() && Released(old(k.book), k.book, root, trapframe)
      ensures CutBytes(old(k.mem), old(k.book), k.mem, k.book, root, 0)
    {
      ghost var m, head, b := k.mem, k.freelist, k.book;
      GiveBack(k.mem, k.freelist, k.book, trapframe);
      k.KFree(trapframe);
      ghost var m1, b1 := k.mem, k.book;
      k.ProcFreePagetable(root, sz);
      ReleasedBytes(m, head, b, m1, b1, k.mem, k.book, root, trapframe);
    }
  }

  /** The table is gone. Its pages and the trapframe page are free, and every other page is what it was. */
  ghost predicate Released(b: Book, c: Book, root: nat, trapframe: nat) {
    && c.flat == b.flat - {root} && c.role.Keys == b.role.Keys
    && (forall p {:trigger c.role[p]} :: p in b.role ==>
           c.role[p] == if p == trapframe || Owned(b.role[p], root) then Free else b.role[p])
  }

  lemma ReleasedBytes(m: Memory, head: nat, b: Book, n: Memory, c: Book, o: Memory, d: Book, root: nat, trapframe: nat)
    requires Inv(m, head, b) && IsHeld(b, trapframe) && n == m[trapframe := Run(head)] && c == Pushed(b, trapframe)
    requires Freed(c, d, root) && KeptData(n, c, o, d) && m.Keys == b.role.Keys
    ensures Released(b, d, root, trapframe) && CutBytes(m, b, o, d, root, 0)
  {
    forall r: nat, va: nat | r in b.flat && va < TRAPFRAME
      ensures UByte(o, d, r, va) == if r == root then 0 else UByte(m, b, r, va)
    {
      assert va / PGSIZE in b.flat[r] ==> LeafOk(m, b, r, va / PGSIZE);
    }
  }

  /** The page is free although the process holds it, and its mapping is gone. */
  ghost predicate Lost(b: Book, root: nat, trapframe: nat) {
    trapframe in b.free && root in b.flat && VTRAPFRAME !in b.flat[root]
  }

  /** sz + n in 64 bits. */
  function NewSize(sz: nat, n: int): (r: nat)
    requires sz <= TRAMPOLINE && -TWO31 <= n < TWO31
    ensures sz + n >= 0 ==> r == sz + n
    ensures sz + n < 0 ==> r > sz
  {
    (sz + n) % TWO64
  }

  /** A change of the size by n takes the trapframe page of a process away from it. */
  predicate FreesTrapframe(sz: nat, n: int) {
    n < 0 && sz + n <= TRAPFRAME < sz
  }

  lemma CanGrow(b: Book, root: nat, trapframe: nat, sz: nat, newsz: nat)
    requires Space(b, root, trapframe, sz) && sz <= TRAMPOLINE
    ensures RoundUp(sz) <= TRAMPOLINE
    ensures forall v {:trigger v in b.flat[root]} ::
              RoundUp(sz) / PGSIZE <= v < RoundUp(newsz) / PGSIZE && !Special(v) ==> v !in b.flat[root]
  {
  }

  lemma HasGrown(m: Memory, head: nat, b: Book, n: Memory, c: Book, root: nat, trapframe: nat, sz: nat, newsz: nat)
    requires Inv(m, head, b) && Space(b, root, trapframe, sz) && sz <= newsz
    requires newsz <= TRAPFRAME || newsz <= RoundUp(sz)
    requires Grew(m, b, n, c, root, sz, newsz, Flags(true, true, false, true, 0))
    ensures Space(c, root, trapframe, newsz) && Aside(b, c, root, trapframe)
    ensures Wrote(m, b, n, c, root, 0, []) && WritableUpTo(c, root, RoundUp(sz), newsz)
  {
    GrewBytes(m, head, b, n, c, root, sz, newsz);
    GrewSpace(m, b, n, c, root, trapframe, sz, newsz);
  }

  lemma GrewSpace(m: Memory, b: Book, n: Memory, c: Book, root: nat, trapframe: nat, sz: nat, newsz: nat)
    requires Space(b, root, trapframe, sz) && sz <= newsz && (newsz <= TRAPFRAME || newsz <= RoundUp(sz))
    requires Grew(m, b, n, c, root, sz, newsz, Flags(true, true, false, true, 0))
    ensures Space(c, root, trapframe, newsz) && Aside(b, c, root, trapframe)
  {
    Span(sz, newsz);
    var vpn, count := FirstPage(sz), PagesBetween(sz, newsz);
    assert VTRAPFRAME !in VRange(vpn, count) && VTRAMPOLINE !in VRange(vpn, count);
    assert RoleGrown(b, c, root, trapframe);
  }

  lemma NotGrown(m: Memory, head: nat, b: Book, n: Memory, c: Book, root: nat, trapframe: nat, sz: nat)
    requires Inv(m, head, b) && Space(b, root, trapframe, sz) && Grown(b, c, root) && SameData(m, b, n)
    ensures Space(c, root, trapframe, sz) && Aside(b, c, root, trapframe)
    ensures Wrote(m, b, n, c, root, 0, [])
  {
    GrownBytes(m, head, b, n, c, root, 0);
  }

  lemma LazySpace(b: Book, root: nat, trapframe: nat, sz: nat, newsz: nat)
    requires Space(b, root, trapframe, sz) && sz <= newsz
    ensures Space(b, root, trapframe, newsz)
  {
    Span(sz, newsz);
  }

  lemma CanShrink(b: Book, root: nat, trapframe: nat, sz: nat, newsz: nat)
    requires Space(b, root, trapframe, sz) && sz <= TRAMPOLINE
    ensures RoundUp(sz) <= TRAMPOLINE
    ensures newsz < sz ==> CanFree(b, root, RoundUp(newsz) / PGSIZE, (RoundUp(sz) - RoundUp(newsz)) / PGSIZE)
  {
  }

  lemma HasShrunk(m: Memory, head: nat, b: Book, c: Book, root: nat, trapframe: nat, sz: nat, newsz: nat)
    requires Inv(m, head, c) && Space(b, root, trapframe, sz) && newsz <= sz <= TRAMPOLINE
    requires UnmapsAny(b, c, root, RoundUp(newsz) / PGSIZE, (RoundUp(sz) - RoundUp(newsz)) / PGSIZE, Free)
    ensures if newsz <= TRAPFRAME < sz then Lost(c, root, trapframe) else Space(c, root, trapframe, newsz)
  {
  }

  lemma ShrunkAside(m: Memory, head: nat, b: Book, c: Book, root: nat, trapframe: nat, sz: nat, newsz: nat)
    requires Inv(m, head, b) && Space(b, root, trapframe, sz) && newsz <= sz <= TRAMPOLINE
    requires UnmapsAny(b, c, root, RoundUp(newsz) / PGSIZE, (RoundUp(sz) - RoundUp(newsz)) / PGSIZE, Free)
    ensures Aside(b, c, root, trapframe)
  {
    forall p | p in b.role && p != trapframe && c.role[p] != b.role[p]
      ensures Owned(b.role[p], root) && c.role[p] == Free
    {
    }
  }

  lemma AfterShrink(m: Memory, head: nat, b: Book, n: Memory, head': nat, c: Book, root: nat, trapframe: nat, sz: nat,
                    newsz: nat)
    requires Inv(m, head, b) && Inv(n, head', c) && Space(b, root, trapframe, sz) && newsz <= sz <= TRAMPOLINE
    requires UnmapsAny(b, c, root, RoundUp(newsz) / PGSIZE, (RoundUp(sz) - RoundUp(newsz)) / PGSIZE, Free)
    requires KeptData(m, b, n, c)
    ensures if newsz <= TRAPFRAME < sz then Lost(c, root, trapframe) else Space(c, root, trapframe, newsz)
    ensures CutBytes(m, b, n, c, root, RoundUp(newsz)) && Aside(b, c, root, trapframe)
  {
    HasShrunk(n, head', b, c, root, trapframe, sz, newsz);
    ShrunkBytes(m, head, b, n, c, root, trapframe, sz, newsz);
    ShrunkAside(m, head, b, c, root, trapframe, sz, newsz);
  }

  lemma NothingDone(m: Memory, b: Book, root: nat, trapframe: nat)
    ensures Wrote(m, b, m, b, root, 0, []) && Aside(b, b, root, trapframe)
  {
  }

  // ---------- a page that is freed twice ----------

  /** The page that i calls of kalloc after the next would return. */
  function Follow(m: Memory, head: nat, i: nat): nat
    decreases i
  {
    if i == 0 then head else if head in m && m[head].Run? then Follow(m, m[head].next, i - 1) else 0
  }

  /** kfree of a page that is free closes the list into a circle: it never ends, and kalloc returns the page again
      and again although nobody gives it back. */
  lemma FreedTwice(m: Memory, head: nat, b: Book, p: nat) returns (round: nat)
    requires FreeList(m, head, b) && p in b.role && b.role[p] == Free
    ensures var n := m[p := Run(head)];
            && round > 0 && Follow(n, p, round) == p
            && forall i: nat :: Follow(n, p, i) != 0 && Follow(n, p, round + i) == Follow(n, p, i)
  {
    var n := m[p := Run(head)];
    var j :| 0 <= j < |b.free| && b.free[j] == p;
    round := j + 1;
    assert FreeAt(m, b, 0) && FreeAt(m, b, j);
    ToPage(m, head, b, j, 0);
    forall i: nat
      ensures Follow(n, p, i) != 0 && Follow(n, p, round + i) == Follow(n, p, i)
    {
      NeverEnds(m, head, b, j, j, i);
      FollowMore(n, p, round, i);
    }
  }

  lemma {:induction false} FollowMore(m: Memory, head: nat, i: nat, k: nat)
    requires Follow(m, head, i) != 0
    ensures Follow(m, head, i + k) == Follow(m, Follow(m, head, i), k)
    decreases i
  {
    if i > 0 {
      FollowMore(m, m[head].next, i - 1, k);
    }
  }

  /** From entry t of the list on to page j. */
  lemma {:induction false} ToPage(m: Memory, head: nat, b: Book, j: nat, t: nat)
    requires FreeList(m, head, b) && t <= j < |b.free|
    ensures Follow(m[b.free[j] := Run(head)], b.free[t], j - t) == b.free[j]
    decreases j - t
  {
    assert FreeAt(m, b, t);
    if t < j {
      ToPage(m, head, b, j, t + 1);
    }
  }

  lemma {:induction false} NeverEnds(m: Memory, head: nat, b: Book, j: nat, t: nat, i: nat)
    requires FreeList(m, head, b) && t <= j < |b.free|
    ensures Follow(m[b.free[j] := Run(head)], b.free[t], i) != 0
    decreases i
  {
    assert FreeAt(m, b, t) && FreeAt(m, b, j);
    if i > 0 {
      NeverEnds(m, head, b, j, if t < j then t + 1 else 0, i - 1);
    }
  }
}
