/** The page allocator and the operations on user page tables. */
module Vm {
  import opened Sv39
  import opened PageTables
  import opened AddressSpaces
  import opened PageCosts

  class Kernel {
    var mem: Memory
    var freelist: nat
    ghost var book: Book

    ghost predicate Valid()
      reads this
    {
      Inv(mem, freelist, book) && book.hole == NoHole
    }

    // ---------- kalloc.c ----------

    /** kinit: every page from first up to last is freed once. */
    constructor (first: nat, last: nat)
      requires 0 < first <= last
      ensures Valid() && book.flat == map[] && book.dirs == map[]
      ensures forall p :: p in book.role <==> first <= p < last
      ensures forall p :: p in book.role ==> book.role[p] == Free
    {
      var count := last - first;
      mem := map p | p in VRange(first, count) :: Data(Zeros());
      freelist := 0;
      book := Book([], map[], map[], map p | p in VRange(first, count) :: Held, NoHole);
      new;
      var p := first;
      while p < last
        invariant first <= p <= last && Valid() && book.flat == map[] && book.dirs == map[]
        invariant forall q :: q in book.role <==> first <= q < last
        invariant forall q :: q in book.role ==> book.role[q] == if q < p then Free else Held
      {
        GiveBack(mem, freelist, book, p);
        KFree(p);
        p := p + 1;
      }
    }

    /** Returns page number 0 when there is no free page; a new page is filled with junk. */
    method KAlloc() returns (p: nat)
      requires FreeList(mem, freelist, book)
      modifies this
      ensures p == 0 <==> old(book.free) == []
      ensures p == 0 ==> mem == old(mem) && freelist == old(freelist) && book == old(book)
      ensures p != 0 ==> p == old(freelist) && p in old(mem) && old(mem)[p].Run?
      ensures p != 0 ==> p in old(book.role) && old(book.role)[p] == Free
      ensures p != 0 ==> mem == old(mem)[p := Data(seq(PGSIZE, _ => 5))] && freelist == old(mem)[p].next
      ensures p != 0 ==> book == Popped(old(book))
      ensures FreeList(mem, freelist, book)
    {
      p := freelist;
      assert book.free != [] ==> FreeAt(mem, book, 0);
      if p != 0 {
        PoppedList(mem, freelist, book, Data(seq(PGSIZE, _ => 5)));
        freelist := mem[p].next;
        mem := mem[p := Data(seq(PGSIZE, _ => 5))];
        book := Popped(book);
      }
    }

    /** A page that is already free must not be freed. */
    method KFree(p: nat)
      requires FreeList(mem, freelist, book) && p in book.role && book.role[p] != Free
      modifies this
      ensures mem == old(mem)[p := Run(old(freelist))] && freelist == p && book == Pushed(old(book), p)
      ensures FreeList(mem, freelist, book)
    {
      PushedList(mem, freelist, book, p);
      mem := mem[p := Run(freelist)];
      freelist := p;
      book := Pushed(book, p);
    }

    // ---------- walk ----------

    /** One level of walk: the table that entry i of table points to, made if need be. */
    method NextTable(table: nat, i: nat, alloc: bool, ghost k: Dir) returns (next: nat)
      requires Valid() && k in book.dirs && book.dirs[k] == table && !k.Low? && i < ENTRIES
      modifies this
      ensures Valid() && Grown(old(book), book, k.root) && SameData(old(mem), old(book), mem)
      ensures next != 0 ==> Child(k, i) in book.dirs && book.dirs[Child(k, i)] == next
      ensures next == 0 ==> Child(k, i) !in book.dirs && (alloc ==> old(book.free) == [])
      ensures next != 0 ==> Paid(old(book), book, {Child(k, i)}, 0)
      ensures next == 0 || !alloc ==> mem == old(mem) && freelist == old(freelist) && book == old(book)
    {
      assert DirOk(mem, book, k);
      var pte := mem[table].ptes[i];
      assert EntryOk(book, k, i, pte);
      if pte.v {
        next := pte.ppn;
        assert DirOk(mem, book, Child(k, i));
        PaidFor(book, Child(k, i));
      } else {
        if !alloc {
          return 0;
        }
        ghost var b := book;
        next := AddTable(table, i, k);
        if next != 0 {
          PaidChild(b, Child(k, i), next);
        }
      }
    }

    /** walk's allocation of a page-table page. */
    method AddTable(table: nat, i: nat, ghost k: Dir) returns (next: nat)
      requires Valid() && k in book.dirs && book.dirs[k] == table && !k.Low? && i < ENTRIES && Child(k, i) !in book.dirs
      modifies this
      ensures Valid() && Grown(old(book), book, k.root) && SameData(old(mem), old(book), mem)
      ensures next != 0 ==> old(book.free) != [] && book == WithChild(Popped(old(book)), Child(k, i), next)
      ensures next == 0 ==> old(book.free) == [] && mem == old(mem) && freelist == old(freelist) && book == old(book)
    {
      ghost var m, b := mem, book;
      next := AllocTable();
      if next == 0 {
        return;
      }
      ChildAdded(m, b, mem, freelist, book, k, i, next, table);
      mem := SetEntry(mem, table, i, Pte(true, NOFLAGS, next));
      book := WithChild(book, Child(k, i), next);
    }

    /** kalloc and then memset: a page-table page without entries. */
    method AllocTable() returns (p: nat)
      requires Valid()
      modifies this
      ensures Valid() && (p == 0 <==> old(book.free) == [])
      ensures p == 0 ==> mem == old(mem) && freelist == old(freelist) && book == old(book)
      ensures p != 0 ==> p == old(book.free)[0] && p in old(book.role) && old(book.role)[p] == Free
      ensures p != 0 ==> mem == old(mem)[p := Table(ZeroTable())] && book == Popped(old(book))
    {
      ghost var m, b := mem, book;
      p := KAlloc();
      if p != 0 {
        mem := mem[p := Table(ZeroTable())];
        assert mem == m[p := Table(ZeroTable())];
        TakePage(m, p, b, Table(ZeroTable()));
      }
    }

    /** One round of the loop of walk, from b0 and m0 on. */
    method Descend(root: nat, va: nat, level: nat, table: nat, alloc: bool, ghost m0: Memory, ghost b0: Book)
      returns (next: nat)
      requires Valid() && root in book.flat && va < MAXVA && 1 <= level <= 2
      requires DirAt(root, va, level) in book.dirs && book.dirs[DirAt(root, va, level)] == table
      requires Grown(b0, book, root) && SameData(m0, b0, mem)
      requires alloc ==> Paid(b0, book, DirsAbove(root, va, level), 0)
      modifies this
      ensures Valid() && Grown(b0, book, root) && SameData(m0, b0, mem)
      ensures next != 0 ==> DirAt(root, va, level - 1) in book.dirs && book.dirs[DirAt(root, va, level - 1)] == next
      ensures next != 0 && alloc ==> Paid(b0, book, DirsAbove(root, va, level - 1), 0)
      ensures next == 0 ==> Low(root, va / PGSIZE / ENTRIES) !in book.dirs
      ensures next == 0 && alloc ==> book.free == [] && !CanPay(b0, PathTo(root, va / PGSIZE), 0)
      ensures !alloc ==> mem == old(mem) && freelist == old(freelist) && book == old(book)
    {
      ghost var m, b, k := mem, book, DirAt(root, va, level);
      ChildAt(root, va, level);
      next := NextTable(table, Px(level, va), alloc, k);
      GrownTwice(m0, b0, m, b, mem, book, root);
      if next == 0 {
        NoDescent(mem, freelist, book, root, va, level);
      }
      if alloc {
        PayLevel(b0, b, book, root, va, level, next != 0);
      }
    }

    /** The page and index of the lowest-level entry for va, or page 0. */
    method Walk(root: nat, va: nat, alloc: bool) returns (table: nat, i: nat)
      requires Valid() && root in book.flat && va < MAXVA
      modifies this
      ensures Valid() && Grown(old(book), book, root) && SameData(old(mem), old(book), mem)
      ensures var h := va / PGSIZE / ENTRIES;
              && i == va / PGSIZE % ENTRIES
              && (table != 0 ==> Low(root, h) in book.dirs && book.dirs[Low(root, h)] == table)
              && (table == 0 ==> Low(root, h) !in book.dirs && (alloc ==> book.free == []))
      ensures alloc ==> (table != 0 <==> CanPay(old(book), PathTo(root, va / PGSIZE), 0))
      ensures alloc && table != 0 ==> Paid(old(book), book, PathTo(root, va / PGSIZE), 0)
      ensures !alloc ==> mem == old(mem) && freelist == old(freelist) && book == old(book)
    {
      ghost var m0, b0 := mem, book;
      IndicesArePages(va, 0, 0, 0);
      i := Px(0, va);
      assert Top(root) in book.dirs && DirOk(mem, book, Top(root));
      PaidNothing(book);
      table := root;
      var level := 2;
      while level > 0
        invariant 0 <= level <= 2 && Valid()
        invariant DirAt(root, va, level) in book.dirs && book.dirs[DirAt(root, va, level)] == table
        invariant Grown(b0, book, root) && SameData(m0, b0, mem)
        invariant alloc ==> Paid(b0, book, DirsAbove(root, va, level), 0)
        invariant !alloc ==> mem == old(mem) && freelist == old(freelist) && book == old(book)
      {
        var next := Descend(root, va, level, table, alloc, m0, b0);
        if next == 0 {
          return 0, i;
        }
        table := next;
        level := level - 1;
      }
      assert DirOk(mem, book, DirAt(root, va, 0));
      NotZero(mem, freelist, book, DirAt(root, va, 0));
    }

    /** walk without allocation, and a look at the entry; an entry that is not there reads as zero. */
    method WalkLeaf(root: nat, va: nat) returns (pte: Pte)
      requires Valid() && root in book.flat && va < MAXVA
      modifies this
      ensures mem == old(mem) && freelist == old(freelist) && book == old(book)
      ensures pte.v <==> va / PGSIZE in book.flat[root]
      ensures pte.v ==> pte == book.flat[root][va / PGSIZE] && IsLeaf(pte.flags)
    {
      var table, i := Walk(root, va, false);
      if table == 0 {
        NoLeaf(mem, freelist, book, root, va / PGSIZE);
        return ZERO;
      }
      LeafEntry(mem, freelist, book, root, va / PGSIZE);
      pte := mem[table].ptes[i];
    }

    /** The physical page number of a user page, or 0. */
    method WalkAddr(root: nat, va: nat) returns (p: nat)
      requires Valid() && root in book.flat
      modifies this
      ensures mem == old(mem) && freelist == old(freelist) && book == old(book)
      ensures p == if va < MAXVA && UserLeaf(book, root, va / PGSIZE) then book.flat[root][va / PGSIZE].ppn else 0
    {
      if va >= MAXVA {
        return 0;
      }
      var pte := WalkLeaf(root, va);
      if !pte.v {
        return 0;
      }
      if !pte.flags.u {
        return 0;
      }
      p := pte.ppn;
    }

    method IsMapped(root: nat, va: nat) returns (mapped: bool)
      requires Valid() && root in book.flat && va < MAXVA
      modifies this
      ensures mem == old(mem) && freelist == old(freelist) && book == old(book)
      ensures mapped <==> va / PGSIZE in book.flat[root]
    {
      var pte := WalkLeaf(root, va);
      mapped := pte.v;
    }

    /** One round of the loop of mappages. */
    method MapPage(root: nat, a: nat, pa: nat, flags: Flags, ghost v: nat, ghost p: nat) returns (ok: bool)
      requires Valid() && root in book.flat && IsLeaf(flags) && a < MAXVA && v == a / PGSIZE && p == pa / PGSIZE
      requires v !in book.flat[root] && (Special(v) || HeldPage(mem, book, p))
      modifies this
      ensures Valid() && SameData(old(mem), old(book), mem)
      ensures ok ==> MapsTo(old(book), book, root, v, p, flags, 1)
      ensures !ok ==> Grown(old(book), book, root) && book.free == []
      ensures ok <==> CanPay(old(book), PathTo(root, v), 0)
      ensures ok ==> Paid(old(book), book, PathTo(root, v), 0)
    {
      var table, i := Walk(root, a, true);
      if table == 0 {
        return false;
      }
      ghost var m, b := mem, book;
      LeafEntry(mem, freelist, book, root, v);
      assert !mem[table].ptes[i].v;  // no remap
      MapOne(mem, freelist, book, root, v, Pte(true, flags, p));
      mem := SetEntry(mem, table, i, Pte(true, flags, pa / PGSIZE));
      book := WithLeaf(book, root, v, Pte(true, flags, p));
      GrownTwice(old(mem), old(book), m, b, mem, b, root);
      MapsFirst(old(book), b, book, root, v, p, flags);
      ok := true;
    }

    /** The loop of mappages: count pages, from virtual page vpn on physical page ppn. */
    method MapLoop(root: nat, va: nat, last: nat, pa: nat, flags: Flags, ghost vpn: nat, ghost ppn: nat,
                   ghost count: nat)
      returns (ok: bool, ghost done: nat)
      requires Valid() && root in book.flat && IsLeaf(flags) && CanMap(mem, book, root, vpn, ppn, count)
      requires va == vpn * PGSIZE && pa == ppn * PGSIZE && count > 0 && last == (vpn + count - 1) * PGSIZE
      requires last < MAXVA
      modifies this
      ensures Valid() && SameData(old(mem), old(book), mem)
      ensures done <= count && (ok <==> done == count) && (ok || book.free == [])
      ensures MapsTo(old(book), book, root, vpn, ppn, flags, done)
      ensures ok <==> CanPay(old(book), PathsFor(root, vpn, count), 0)
      ensures ok ==> Paid(old(book), book, PathsFor(root, vpn, count), 0)
    {
      ghost var m0, b0 := mem, book;
      var a, p := va, pa;
      done := 0;
      MapsNothing(book, root, vpn, ppn, flags);
      PathsStart(book, root, vpn);
      while true
        invariant Valid() && SameData(m0, b0, mem) && Paid(b0, book, PathsFor(root, vpn, done), 0)
        invariant done < count && a == (vpn + done) * PGSIZE && p == (ppn + done) * PGSIZE
        invariant MapsTo(b0, book, root, vpn, ppn, flags, done)
        decreases last - a
      {
        ghost var next := done + 1;
        ok := MapRound(root, a, p, flags, vpn, ppn, done, next, count, m0, b0);
        if !ok {
          return;
        }
        done := next;
        if a == last {
          return;
        }
        a := a + PGSIZE;
        p := p + PGSIZE;
      }
    }

    /** One round of it, after done pages. */
    method MapRound(root: nat, a: nat, p: nat, flags: Flags, ghost vpn: nat, ghost ppn: nat, ghost done: nat,
                    ghost next: nat, ghost count: nat, ghost m0: Memory, ghost b0: Book)
      returns (ok: bool)
      requires Valid() && root in book.flat && IsLeaf(flags) && CanMap(m0, b0, root, vpn, ppn, count)
      requires SameData(m0, b0, mem) && MapsTo(b0, book, root, vpn, ppn, flags, done) && m0.Keys == b0.role.Keys
      requires Paid(b0, book, PathsFor(root, vpn, done), 0)
      requires done < count && a == (vpn + done) * PGSIZE && p == (ppn + done) * PGSIZE && a < MAXVA && next == done + 1
      modifies this
      ensures Valid() && SameData(m0, b0, mem)
      ensures ok ==> MapsTo(b0, book, root, vpn, ppn, flags, next) && Paid(b0, book, PathsFor(root, vpn, next), 0)
      ensures !ok ==> MapsTo(b0, book, root, vpn, ppn, flags, done) && book.free == []
      ensures !ok ==> !CanPay(b0, PathsFor(root, vpn, count), 0)
    {
      ghost var m1, b1, v, q := mem, book, vpn + done, ppn + done;
      PageAfter(0, v);
      PageAfter(0, q);
      StillCanMap(m0, b0, mem, book, root, vpn, ppn, flags, done, count, v, q);
      ok := MapPage(root, a, p, flags, v, q);
      if ok {
        MapsJoin(m0, b0, m1, b1, mem, book, root, vpn, ppn, flags, done, v, q);
        RangePaid(b0, b1, book, root, vpn, done, next, v, 0, 0);
      } else {
        RangeNotPaid(b0, b1, root, vpn, done, v, 0, 0, count, 0);
        MapsData(m0, b0, m1, b1, mem, root, vpn, ppn, flags, done);
        MapsGrown(b0, b1, book, root, vpn, ppn, flags, done);
      }
    }

    /** Maps the pages from physical address pa on; when it fails, done of them are mapped. */
    method MapPages(root: nat, va: nat, size: nat, pa: nat, flags: Flags) returns (ok: bool, ghost done: nat)
      requires Valid() && root in book.flat && IsLeaf(flags)
      requires va % PGSIZE == 0 && size % PGSIZE == 0 && size > 0 && va + size <= MAXVA && pa % PGSIZE == 0
      requires CanMap(mem, book, root, va / PGSIZE, pa / PGSIZE, size / PGSIZE)
      modifies this
      ensures Valid() && SameData(old(mem), old(book), mem)
      ensures done <= size / PGSIZE && (ok <==> done == size / PGSIZE) && (ok || book.free == [])
      ensures MapsTo(old(book), book, root, va / PGSIZE, pa / PGSIZE, flags, done)
      ensures ok <==> CanPay(old(book), PathsFor(root, va / PGSIZE, size / PGSIZE), 0)
      ensures ok ==> Paid(old(book), book, PathsFor(root, va / PGSIZE, size / PGSIZE), 0)
    {
      ok, done := MapLoop(root, va, va + size - PGSIZE, pa, flags, va / PGSIZE, pa / PGSIZE, size / PGSIZE);
    }

    /** One round of the loop of uvmunmap. */
    method UnmapPage(root: nat, a: nat, doFree: bool)
      requires Valid() && root in book.flat && a < MAXVA && a % PGSIZE == 0
      requires doFree ==> CanFree(book, root, a / PGSIZE, 1)
      modifies this
      ensures Valid() && KeptData(old(mem), old(book), mem, book)
      ensures UnmapsAny(old(book), book, root, a / PGSIZE, 1, if doFree then Free else Held)
    {
      ghost var b, vpn := book, a / PGSIZE;
      var table, i := Walk(root, a, false);
      if table == 0 {
        NoLeaf(mem, freelist, book, root, vpn);
        UnmapsMissing(mem, freelist, book, root, vpn, if doFree then Free else Held);
        return;
      }
      LeafEntry(mem, freelist, book, root, vpn);
      var pte := mem[table].ptes[i];
      if !pte.v {
        UnmapsMissing(mem, freelist, book, root, vpn, if doFree then Free else Held);
        return;
      }
      if doFree {
        FreedAgain(mem, freelist, book, root, vpn);
        KFree(pte.ppn);
        book := Pushed(WithoutLeaf(b, root, vpn, Held), pte.ppn);
      } else {
        HeldAgain(mem, freelist, book, root, vpn);
        book := WithoutLeaf(b, root, vpn, Held);
      }
      mem := SetEntry(mem, table, i, ZERO);
    }

    /** Takes the pages from va on out of the table; do_free gives the physical pages back, special ones included. */
    method UvmUnmap(root: nat, va: nat, npages: nat, doFree: bool)
      requires Valid() && root in book.flat && va % PGSIZE == 0 && va + npages * PGSIZE <= MAXVA
      requires doFree ==> CanFree(book, root, va / PGSIZE, npages)
      modifies this
      ensures Valid() && KeptData(old(mem), old(book), mem, book)
      ensures UnmapsAny(old(book), book, root, va / PGSIZE, npages, if doFree then Free else Held)
    {
      ghost var vpn, n := va / PGSIZE, 0;
      ghost var m0, b0, now := mem, book, if doFree then Free else Held;
      UnmapsNone(book, root, vpn, now);
      var a := va;
      while a < va + npages * PGSIZE
        invariant n <= npages && a == va + n * PGSIZE
        invariant Valid() && KeptData(m0, b0, mem, book) && UnmapsAny(b0, book, root, vpn, n, now)
      {
        ghost var m1, b1 := mem, book;
        PageAfter(va, n);
        if doFree {
          CanFreeNext(b0, book, root, vpn, n, npages);
        }
        UnmapPage(root, a, doFree);
        UnmapsMore(m0, b0, m1, b1, mem, book, root, vpn, n, now);
        n := n + 1;
        a := a + PGSIZE;
      }
    }

    /** kalloc and then memset or memmove. */
    method AllocFilled(bytes: seq<nat>) returns (p: nat)
      requires Valid() && |bytes| == PGSIZE
      modifies this
      ensures Valid() && (p == 0 <==> old(book.free) == [])
      ensures p == 0 ==> mem == old(mem) && book == old(book)
      ensures p != 0 ==>
                p == old(book.free)[0] && p in old(book.role) && old(book.role)[p] == Free && HeldPage(mem, book, p)
      ensures p != 0 ==> mem == old(mem)[p := Data(bytes)] && book == Popped(old(book))
    {
      ghost var m, b := mem, book;
      p := KAlloc();
      if p != 0 {
        mem := mem[p := Data(bytes)];
        assert mem == m[p := Data(bytes)];
        TakePage(m, p, b, Data(bytes));
      }
    }

    /** mappages for one page. */
    method MapHeld(root: nat, va: nat, p: nat, flags: Flags) returns (ok: bool)
      requires Valid() && root in book.flat && va < MAXVA && va % PGSIZE == 0 && IsLeaf(flags)
      requires va / PGSIZE !in book.flat[root] && (Special(va / PGSIZE) || HeldPage(mem, book, p))
      modifies this
      ensures Valid() && SameData(old(mem), old(book), mem)
      ensures ok ==> MapsTo(old(book), book, root, va / PGSIZE, p, flags, 1)
      ensures !ok ==> MapsTo(old(book), book, root, va / PGSIZE, p, flags, 0)
      ensures ok <==> CanPay(old(book), PathTo(root, va / PGSIZE), 0)
      ensures ok ==> Paid(old(book), book, PathTo(root, va / PGSIZE), 0)
    {
      PathsOne(root, va / PGSIZE);
      CanMapHeld(mem, book, root, va / PGSIZE, p);
      var pa := p * PGSIZE;
      assert pa / PGSIZE == p && PGSIZE / PGSIZE == 1;
      ghost var done;
      ok, done := MapPages(root, va, PGSIZE, pa, flags);
      assert done == if ok then 1 else 0;
    }

    /** What uvmalloc, uvmcopy and vmfault each do for one page: allocate and fill a page and map it,
        giving it back when no page-table page can be had. */
    method MapFresh(root: nat, va: nat, bytes: seq<nat>, flags: Flags) returns (p: nat)
      requires Valid() && root in book.flat && va < MAXVA && va % PGSIZE == 0 && IsLeaf(flags) && |bytes| == PGSIZE
      requires !Special(va / PGSIZE) && va / PGSIZE !in book.flat[root]
      modifies this
      ensures Valid() && SameData(old(mem), old(book), mem)
      ensures p == 0 ==> Grown(old(book), book, root)
      ensures p != 0 ==>
                Fresh(old(book), book, root, va / PGSIZE, Pte(true, flags, p)) && p in mem && mem[p] == Data(bytes)
      ensures p != 0 <==> CanPay(old(book), PathTo(root, va / PGSIZE), 1)
      ensures p != 0 ==> Paid(old(book), book, PathTo(root, va / PGSIZE), 1)
    {
      ghost var m, b := mem, book;
      p := AllocFilled(bytes);
      if p == 0 {
        return;
      }
      ghost var b1 := book;
      var ok := MapHeld(root, va, p, flags);
      FreshPaid(b, b1, book, PathTo(root, va / PGSIZE), ok);
      FreshData(m, b, p, Data(bytes), mem);
      if ok {
        FreshFromMaps(b, book, root, va / PGSIZE, p, flags);
      } else {
        GrownFromMaps(b, book, root, va / PGSIZE, p, flags);
        GiveBack(mem, freelist, book, p);
        KFree(p);
        p := 0;
      }
    }

    method UvmCreate() returns (root: nat)
      requires Valid()
      modifies this
      ensures Valid() && SameData(old(mem), old(book), mem)
      ensures root == 0 <==> old(book.free) == []
      ensures root == 0 ==> mem == old(mem) && book == old(book)
      ensures root != 0 ==> root in old(book.role) && old(book.role)[root] == Free && root !in old(book.flat)
      ensures root != 0 ==>
                old(book.free) != [] && old(book.free)[0] == root && book == WithTop(Popped(old(book)), root)
    {
      root := AllocTable();
      if root != 0 {
        NewTop(mem, freelist, book, root);
        book := WithTop(book, root);
      }
    }

    method UvmDealloc(root: nat, oldsz: nat, newsz: nat) returns (sz: nat)
      requires Valid() && root in book.flat
      requires newsz < oldsz ==>
                 && RoundUp(oldsz) <= MAXVA
                 && CanFree(book, root, RoundUp(newsz) / PGSIZE, (RoundUp(oldsz) - RoundUp(newsz)) / PGSIZE)
      modifies this
      ensures Valid() && KeptData(old(mem), old(book), mem, book)
      ensures sz == if newsz < oldsz then newsz else oldsz
      ensures UnmapsAny(old(book), book, root, RoundUp(sz) / PGSIZE, (RoundUp(oldsz) - RoundUp(sz)) / PGSIZE, Free)
    {
      if newsz >= oldsz {
        UnmapsNone(book, root, RoundUp(oldsz) / PGSIZE, Free);
        return oldsz;
      }
      if RoundUp(newsz) < RoundUp(oldsz) {
        var npages := (RoundUp(oldsz) - RoundUp(newsz)) / PGSIZE;
        UvmUnmap(root, RoundUp(newsz), npages, true);
      } else {
        UnmapsNone(book, root, RoundUp(newsz) / PGSIZE, Free);
      }
      return newsz;
    }

    /** uvmalloc's way back: uvmdealloc from a to base. */
    method GiveUp(root: nat, a: nat, base: nat, ghost vpn: nat, ghost n: nat)
      requires Valid() && root in book.flat && base == vpn * PGSIZE && a == base + n * PGSIZE
      requires (a <= TRAPFRAME || n == 0)
      modifies this
      ensures Valid() && KeptData(old(mem), old(book), mem, book)
      ensures Unmaps(old(book), book, root, vpn, n, Free)
    {
      assert base % PGSIZE == 0 && base / PGSIZE == vpn;
      RoundUpPages(base, n);
      ghost var b := book;
      var back := UvmDealloc(root, a, base);
      UnmapsUsers(b, book, root, vpn, n, Free);
    }

    /** Adds zeroed pages for [oldsz, newsz); when memory runs out the table is as it was. Growth into the special pages
        makes mappages panic, when memory does not run out first. */
    method UvmAlloc(root: nat, oldsz: nat, newsz: nat, w: bool, x: bool) returns (sz: nat, ok: bool, panicked: bool)
      requires Valid() && root in book.flat
      requires RoundUp(newsz) <= TRAPFRAME
               || (RoundUp(oldsz) <= TRAMPOLINE && VTRAPFRAME in book.flat[root] && VTRAMPOLINE in book.flat[root])
      requires forall v {:trigger v in book.flat[root]} ::
                 RoundUp(oldsz) / PGSIZE <= v < RoundUp(newsz) / PGSIZE && !Special(v) ==> v !in book.flat[root]
      modifies this
      ensures panicked ==> !ok && newsz > RoundUp(oldsz) && newsz > TRAPFRAME
      ensures ok ==> newsz <= RoundUp(oldsz) || newsz <= TRAPFRAME
      ensures Valid() && (!panicked ==> SameData(old(mem), old(book), mem))
      ensures !panicked ==> sz == if newsz < oldsz then oldsz else if ok then newsz else 0
      ensures newsz < oldsz ==> ok && book == old(book) && mem == old(mem)
      ensures newsz >= oldsz && ok ==>
                Grew(old(mem), old(book), mem, book, root, oldsz, newsz, Flags(true, w, x, true, 0))
      ensures !ok && !panicked ==> Grown(old(book), book, root)
      ensures newsz >= oldsz ==> GrowthEnds(old(book), root, oldsz, newsz, ok, panicked)
    {
      if newsz < oldsz {
        return oldsz, true, false;
      }
      Span(oldsz, newsz);
      ghost var vpn, count := FirstPage(oldsz), PagesBetween(oldsz, newsz);
      ok, panicked := GrowLoop(root, RoundUp(oldsz), newsz, Flags(true, w, x, true, 0), vpn, count);
      sz := if ok then newsz else 0;
    }

    /** The loop of uvmalloc: count pages from virtual page vpn on. */
    method GrowLoop(root: nat, base: nat, newsz: nat, flags: Flags, ghost vpn: nat, ghost count: nat)
      returns (ok: bool, panicked: bool)
      requires Valid() && root in book.flat && base == vpn * PGSIZE && IsLeaf(flags)
      requires newsz <= base + count * PGSIZE && (count > 0 ==> base + count * PGSIZE < newsz + PGSIZE)
      requires vpn + count <= VTRAPFRAME ||
               (vpn <= VTRAMPOLINE && VTRAPFRAME in book.flat[root] && VTRAMPOLINE in book.flat[root])
      requires forall v {:trigger v in book.flat[root]} :: vpn <= v < vpn + count && !Special(v) ==>
                 v !in book.flat[root]
      modifies this
      ensures Valid() && (panicked ==> !ok && count > 0 && newsz > TRAPFRAME)
      ensures ok ==> ZeroFilled(old(mem), old(book), mem, book, root, vpn, count, flags)
      ensures ok ==> count == 0 || newsz <= TRAPFRAME
      ensures !ok && !panicked ==> Grown(old(book), book, root) && SameData(old(mem), old(book), mem)
      ensures SpanEnds(old(book), root, newsz, vpn, count, ok, panicked)
    {
      ghost var m0, head0, b0, n := mem, freelist, book, 0;
      var a := base;
      ZeroNothing(mem, book, root, vpn, flags);
      PathsStart(book, root, vpn);
      while a < newsz
        invariant n <= count && a == base + n * PGSIZE && (vpn + n <= VTRAPFRAME || n == 0)
        invariant Valid() && ZeroFilled(m0, b0, mem, book, root, vpn, n, flags)
        invariant Paid(b0, book, PathsFor(root, vpn, n), n)
      {
        ghost var m := n + 1;
        ok, panicked := GrowRound(root, a, base, flags, vpn, n, m, count, newsz, m0, head0, b0);
        if !ok {
          return;
        }
        n := m;
        a := a + PGSIZE;
      }
      assert n == count && (count == 0 || vpn + count <= VTRAPFRAME);
      ok, panicked := true, false;
    }

    /** One round of the loop, and what it says about its end. */
    method GrowRound(root: nat, a: nat, base: nat, flags: Flags, ghost vpn: nat, ghost n: nat, ghost m: nat,
                     ghost count: nat, ghost newsz: nat, ghost m0: Memory, ghost head0: nat, ghost b0: Book)
      returns (ok: bool, panicked: bool)
      requires Valid() && Inv(m0, head0, b0) && ZeroFilled(m0, b0, mem, book, root, vpn, n, flags) && m == n + 1
      requires base == vpn * PGSIZE && a == base + n * PGSIZE && a < MAXVA && IsLeaf(flags)
      requires (vpn + n <= VTRAPFRAME || n == 0) && n < count && a < newsz
      requires forall v {:trigger v in b0.flat[root]} :: vpn <= v < vpn + count && !Special(v) ==>
                 v !in b0.flat[root]
      requires Paid(b0, book, PathsFor(root, vpn, n), n)
      modifies this
      ensures Valid() && (ok ==> ZeroFilled(m0, b0, mem, book, root, vpn, m, flags))
      ensures !ok && !panicked ==> Grown(b0, book, root) && SameData(m0, b0, mem)
      ensures ok ==> vpn + n < VTRAPFRAME && !panicked && Paid(b0, book, PathsFor(root, vpn, m), m)
      ensures panicked ==> a >= TRAPFRAME
      ensures !ok ==> SpanEnds(b0, root, newsz, vpn, count, ok, panicked)
    {
      ghost var b1 := book;
      ok, panicked := GrowPage(root, a, base, flags, vpn, n, m, count, m0, head0, b0);
      if ok {
        RangePaid(b0, b1, book, root, vpn, n, m, vpn + n, n, 1);
      } else {
        GrowthStops(b0, b1, root, vpn, n, vpn + n, count, panicked);
      }
    }

    /** One round of the loop of uvmalloc; when it fails, all rounds are undone. A special page is mapped already. */
    method GrowPage(root: nat, a: nat, base: nat, flags: Flags, ghost vpn: nat, ghost n: nat, ghost m: nat,
                    ghost count: nat, ghost m0: Memory, ghost head0: nat, ghost b0: Book)
      returns (ok: bool, panicked: bool)
      requires Valid() && Inv(m0, head0, b0) && ZeroFilled(m0, b0, mem, book, root, vpn, n, flags) && m == n + 1
      requires base == vpn * PGSIZE && a == base + n * PGSIZE && a < MAXVA && IsLeaf(flags)
      requires (vpn + n <= VTRAPFRAME || n == 0) && n < count
      requires forall v {:trigger v in b0.flat[root]} :: vpn <= v < vpn + count && !Special(v) ==>
                 v !in b0.flat[root]
      modifies this
      ensures Valid() && (ok ==> ZeroFilled(m0, b0, mem, book, root, vpn, m, flags))
      ensures !ok && !panicked ==> Grown(b0, book, root) && SameData(m0, b0, mem)
      ensures if vpn + n < VTRAPFRAME then !panicked && (ok <==> CanPay(old(book), PathTo(root, vpn + n), 1))
              else !ok && (panicked <==> old(book.free) != [])
      ensures ok ==> Paid(old(book), book, PathTo(root, vpn + n), 1)
    {
      ghost var m1, b1 := mem, book;
      assert a % PGSIZE == 0 && a / PGSIZE == vpn + n && (a < TRAPFRAME <==> vpn + n < VTRAPFRAME);
      assert forall v {:trigger v in b0.flat[root]} :: vpn <= v < vpn + n ==> v !in b0.flat[root];
      if a >= TRAPFRAME {
        panicked := GrowOver(root, a, base, flags, vpn, n, m0, head0, b0);
        return false, panicked;
      }
      var p := MapFresh(root, a, Zeros(), flags);
      if p == 0 {
        ghost var m2, b2 := mem, book;
        GiveUp(root, a, base, vpn, n);
        ZeroBack(m0, head0, b0, m1, b1, m2, b2, mem, book, root, vpn, n, flags);
        return false, false;
      }
      ZeroMore(m0, head0, b0, m1, b1, mem, freelist, book, root, vpn, n, a / PGSIZE, Pte(true, flags, p), flags);
      return true, false;
    }

    /** The same round at a special page, where mappages panics: "remap". */
    method GrowOver(root: nat, a: nat, base: nat, flags: Flags, ghost vpn: nat, ghost n: nat, ghost m0: Memory,
                    ghost head0: nat, ghost b0: Book)
      returns (panicked: bool)
      requires Valid() && Inv(m0, head0, b0) && ZeroFilled(m0, b0, mem, book, root, vpn, n, flags)
      requires base == vpn * PGSIZE && a == base + n * PGSIZE && (a <= TRAPFRAME || n == 0)
      requires forall v {:trigger v in b0.flat[root]} :: vpn <= v < vpn + n ==> v !in b0.flat[root]
      modifies this
      ensures Valid() && (panicked <==> old(book.free) != [])
      ensures !panicked ==> Grown(b0, book, root) && SameData(m0, b0, mem)
    {
      ghost var m1, b1 := mem, book;
      var p := AllocFilled(Zeros());
      if p == 0 {
        GiveUp(root, a, base, vpn, n);
        ZeroBack(m0, head0, b0, m1, b1, m1, b1, mem, book, root, vpn, n, flags);
      }
      panicked := p != 0;
    }

    /** Copies the pages of one table below sz to the other; on failure the other is as it was. Going on to the special
        pages makes mappages panic, when memory does not run out first. */
    method UvmCopy(src: nat, dst: nat, sz: nat) returns (ok: bool, panicked: bool)
      requires Valid() && src in book.flat && dst in book.flat && src != dst
      requires RoundUp(sz) <= TRAPFRAME || (VTRAPFRAME in book.flat[src] && VTRAPFRAME in book.flat[dst])
      requires forall v: nat {:trigger v in book.flat[dst]} :: v < RoundUp(sz) / PGSIZE && !Special(v) ==>
                 v !in book.flat[dst]
      modifies this
      ensures Valid() && (panicked ==> !ok) && (!panicked ==> SameData(old(mem), old(book), mem))
      ensures ok ==> Copied(old(mem), old(book), mem, book, src, dst, RoundUp(sz) / PGSIZE)
      ensures !ok && !panicked ==> Grown(old(book), book, dst)
      ensures CopyEnds(old(book), src, dst, RoundUp(sz) / PGSIZE, ok, panicked)
    {
      ghost var count := RoundUp(sz) / PGSIZE;
      SizeSpan(sz);
      ok, panicked := CopyLoop(src, dst, sz, count);
    }

    method CopyLoop(src: nat, dst: nat, sz: nat, ghost count: nat) returns (ok: bool, panicked: bool)
      requires Valid() && src in book.flat && dst in book.flat && src != dst
      requires sz <= count * PGSIZE && (count > 0 ==> count * PGSIZE < sz + PGSIZE)
      requires count <= VTRAPFRAME || (VTRAPFRAME in book.flat[src] && VTRAPFRAME in book.flat[dst])
      requires forall v: nat {:trigger v in book.flat[dst]} :: v < count && v < VTRAPFRAME ==> v !in book.flat[dst]
      modifies this
      ensures Valid() && (panicked ==> !ok) && (!panicked ==> SameData(old(mem), old(book), mem))
      ensures ok ==> Copied(old(mem), old(book), mem, book, src, dst, count)
      ensures !ok && !panicked ==> Grown(old(book), book, dst)
      ensures CopyEnds(old(book), src, dst, count, ok, panicked)
    {
      ghost var m0, head0, b0, v := mem, freelist, book, 0;
      var i := 0;
      CopiedNothing(mem, book, src, dst);
      CopyStart(book, src, dst);
      while i < sz
        invariant i == v * PGSIZE && v <= count && v <= VTRAPFRAME
        invariant Valid() && Copied(m0, b0, mem, book, src, dst, v) && CopyPaid(b0, book, src, dst, v)
      {
        ghost var next := v + 1;
        ok, panicked := CopyRound(src, dst, i, v, next, count, m0, head0, b0);
        if !ok {
          return;
        }
        v := next;
        i := i + PGSIZE;
      }
      assert v == count;
      CopyDone(b0, book, src, dst, count);
      return true, false;
    }

    /** One round of the loop of uvmcopy, and what it says about its end. */
    method CopyRound(src: nat, dst: nat, i: nat, ghost v: nat, ghost next: nat, ghost count: nat, ghost m0: Memory,
                     ghost head0: nat, ghost b0: Book)
      returns (ok: bool, panicked: bool)
      requires Valid() && Inv(m0, head0, b0) && Copied(m0, b0, mem, book, src, dst, v) && src != dst
      requires i == v * PGSIZE && v < count && v <= VTRAPFRAME && next == v + 1 && CopyPaid(b0, book, src, dst, v)
      requires forall w {:trigger w in b0.flat[dst]} :: w <= v && w < VTRAPFRAME ==> w !in b0.flat[dst]
      requires v == VTRAPFRAME ==> v in b0.flat[src]
      modifies this
      ensures Valid() && (panicked ==> !ok)
      ensures ok ==> v < VTRAPFRAME && Copied(m0, b0, mem, book, src, dst, next) && CopyPaid(b0, book, src, dst, next)
      ensures !ok && !panicked ==> Grown(b0, book, dst) && SameData(m0, b0, mem)
      ensures !ok ==> CopyEnds(b0, src, dst, count, ok, panicked)
    {
      ghost var b1 := book;
      ok, panicked := CopyPage(src, dst, i, v, m0, head0, b0);
      if ok {
        CopyNextPaid(b0, b1, book, src, dst, v);
      } else {
        CopyStops(b0, b1, src, dst, v, count, panicked);
      }
    }

    /** When it fails, all rounds are undone. */
    method CopyPage(src: nat, dst: nat, i: nat, ghost v: nat, ghost m0: Memory, ghost head0: nat, ghost b0: Book)
      returns (ok: bool, panicked: bool)
      requires Valid() && Inv(m0, head0, b0) && Copied(m0, b0, mem, book, src, dst, v) && src != dst
      requires i == v * PGSIZE && v <= VTRAPFRAME && (v == VTRAPFRAME ==> v in b0.flat[src])
      requires forall w {:trigger w in b0.flat[dst]} :: w <= v && w < VTRAPFRAME ==> w !in b0.flat[dst]
      modifies this
      ensures Valid() && (panicked ==> !ok) && (ok ==> Copied(m0, b0, mem, book, src, dst, v + 1))
      ensures !ok && !panicked ==> Grown(b0, book, dst) && SameData(m0, b0, mem)
      ensures if v !in b0.flat[src] then ok && book == old(book)
              else if v < VTRAPFRAME then !panicked && (ok <==> CanPay(old(book), PathTo(dst, v), 1))
              else !ok && (panicked <==> old(book.free) != [])
      ensures ok && v in b0.flat[src] ==> Paid(old(book), book, PathTo(dst, v), 1)
    {
      CopySource(m0, head0, b0, mem, book, src, dst, v);
      PageAfter(0, v);
      var p := WalkLeaf(src, i);
      if !p.v {
        CopiedSkip(m0, b0, mem, book, src, dst, v);
        return true, false;
      }
      if i == TRAPFRAME {
        panicked := CopyOver(src, dst, i, v, m0, head0, b0);
        return false, panicked;
      }
      ok := CopyLeaf(src, dst, i, v, p, m0, head0, b0);
      return ok, false;
    }

    /** The round at the trapframe page, where mappages panics: "remap". The contents of the new page do not matter. */
    method CopyOver(src: nat, dst: nat, i: nat, ghost v: nat, ghost m0: Memory, ghost head0: nat, ghost b0: Book)
      returns (panicked: bool)
      requires Valid() && Inv(m0, head0, b0) && Copied(m0, b0, mem, book, src, dst, v) && dst in book.flat
      requires i == TRAPFRAME && v == VTRAPFRAME
      requires forall w {:trigger w in b0.flat[dst]} :: w < v ==> w !in b0.flat[dst]
      modifies this
      ensures Valid() && (panicked <==> old(book.free) != [])
      ensures !panicked ==> Grown(b0, book, dst) && SameData(m0, b0, mem)
    {
      ghost var m1, b1 := mem, book;
      var p := AllocFilled(Zeros());
      if p == 0 {
        UnmapBelow(dst, i, v);
        CopyBack(m0, head0, b0, m1, b1, m1, b1, mem, book, src, dst, v);
      }
      panicked := p != 0;
    }

    /** uvmcopy's way back: uvmunmap of everything below i. */
    method UnmapBelow(root: nat, i: nat, ghost v: nat)
      requires Valid() && root in book.flat && i % PGSIZE == 0 && i <= TRAPFRAME && v == i / PGSIZE
      modifies this
      ensures Valid() && KeptData(old(mem), old(book), mem, book) && Unmaps(old(book), book, root, 0, v, Free)
    {
      ghost var b := book;
      UvmUnmap(root, 0, i / PGSIZE, true);
      UnmapsUsers(b, book, root, 0, v, Free);
    }

    method CopyLeaf(src: nat, dst: nat, i: nat, ghost v: nat, p: Pte, ghost m0: Memory, ghost head0: nat,
                    ghost b0: Book)
      returns (ok: bool)
      requires Valid() && Inv(m0, head0, b0) && Copied(m0, b0, mem, book, src, dst, v) && src != dst
      requires i < TRAPFRAME && i % PGSIZE == 0 && v == i / PGSIZE && v in b0.flat[src] && p == b0.flat[src][v]
      requires UserPage(m0, b0, src, v, p.ppn) && p.ppn in mem && mem[p.ppn] == m0[p.ppn] && p.v && IsLeaf(p.flags)
      requires dst in book.flat && v !in book.flat[dst]
      requires forall w {:trigger w in b0.flat[dst]} :: w <= v ==> w !in b0.flat[dst]
      modifies this
      ensures Valid() && (ok ==> Copied(m0, b0, mem, book, src, dst, v + 1))
      ensures !ok ==> Grown(b0, book, dst) && SameData(m0, b0, mem)
      ensures ok <==> CanPay(old(book), PathTo(dst, v), 1)
      ensures ok ==> Paid(old(book), book, PathTo(dst, v), 1)
    {
      ghost var m1, b1 := mem, book;
      var to := MapFresh(dst, i, mem[p.ppn].bytes, p.flags);
      if to == 0 {
        ghost var m2, b2 := mem, book;
        UnmapBelow(dst, i, v);
        CopyBack(m0, head0, b0, m1, b1, m2, b2, mem, book, src, dst, v);
        return false;
      }
      CopiedMore(m0, head0, b0, m1, b1, mem, freelist, book, src, dst, v, Pte(true, p.flags, to));
      return true;
    }

    /** Frees k and all page-table pages below it; no leaf is met, so it does not panic. */
    method FreeWalk(table: nat, ghost k: Dir)
      requires Valid() && k in book.dirs && book.dirs[k] == table && NoLeafUnder(book, k)
      modifies this
      ensures Inv(mem, freelist, book) && CutOff(old(book), book, k) && SameData(old(mem), old(book), mem)
      decreases Height(k)
    {
      ghost var m0, b0 := mem, book;
      CutToStart(book, k);
      var i := 0;
      while i < ENTRIES
        invariant i <= ENTRIES
        invariant Valid() && CutTo(b0, book, k, i) && SameData(m0, b0, mem)
      {
        FreeEntry(table, i, k, m0, b0);
        i := i + 1;
      }
      CutToKeeps(b0, book, k, ENTRIES);
      ghost var m1, head1, b1 := mem, freelist, book;
      assert DirOk(mem, book, k);
      CutLast(b0, book, k, mem, freelist);
      DropDir(mem, freelist, book, k);
      KFree(table);
      book := Dropped(b1, k, table);
      CutData(m0, b0, m1, b1, mem, k, ENTRIES);
    }

    /** The entry is cleared only after the child it points to has been freed. */
    method FreeChild(child: nat, table: nat, i: nat, ghost k: Dir, ghost m0: Memory, ghost b0: Book)
      requires Valid() && k in book.dirs && book.dirs[k] == table && !k.Low? && i < ENTRIES
      requires (k.Mid? ==> k.a < ENTRIES)
      requires Child(k, i) in book.dirs && book.dirs[Child(k, i)] == child && NoLeafUnder(book, Child(k, i))
      requires CutTo(b0, book, k, i) && SameData(m0, b0, mem) && m0.Keys == b0.role.Keys
      modifies this
      ensures Valid() && CutTo(b0, book, k, i + 1) && SameData(m0, b0, mem)
      decreases Height(k), 0
    {
      ghost var m1, b1 := mem, book;
      FreeWalk(child, Child(k, i));
      ghost var b2 := book;
      ChildCut(m0, b0, m1, b1, mem, freelist, book, k, i);
      mem := SetEntry(mem, table, i, ZERO);
      book := b2.(hole := NoHole);
    }

    /** One round of the loop of freewalk. */
    method FreeEntry(table: nat, i: nat, ghost k: Dir, ghost m0: Memory, ghost b0: Book)
      requires Valid() && k in b0.dirs && b0.dirs[k] == table && NoLeafUnder(b0, k) && i < ENTRIES
      requires CutTo(b0, book, k, i) && SameData(m0, b0, mem) && m0.Keys == b0.role.Keys
      modifies this
      ensures Valid() && CutTo(b0, book, k, i + 1) && SameData(m0, b0, mem)
      decreases Height(k), 1
    {
      CutToKeeps(b0, book, k, i);
      assert DirOk(mem, book, k);
      var pte := mem[table].ptes[i];
      if pte.v {
        ValidEntry(mem, freelist, book, k, i);
      }
      if pte.v && !IsLeaf(pte.flags) {
        FreeChild(pte.ppn, table, i, k, m0, b0);
      } else if pte.v {
        assert false;  // panic("freewalk: leaf")
      } else {
        CutNothing(mem, freelist, b0, book, k, i);
      }
    }

    /** Frees the user pages below sz and the page-table pages. */
    method UvmFree(root: nat, sz: nat)
      requires Valid() && root in book.flat && RoundUp(sz) <= MAXVA
      requires forall v :: v in book.flat[root] ==> !Special(v) && v < RoundUp(sz) / PGSIZE
      modifies this
      ensures Valid() && Freed(old(book), book, root) && KeptData(old(mem), old(book), mem, book)
    {
      ghost var m0, head0, b0 := mem, freelist, book;
      ghost var n := RoundUp(sz) / PGSIZE;
      if sz > 0 {
        UvmUnmap(root, 0, RoundUp(sz) / PGSIZE, true);
        UnmapsUsers(b0, book, root, 0, n, Free);
      } else {
        UnmapsNothing(book, root, 0, Free);
      }
      assert Top(root) in book.dirs && DirOk(mem, book, Top(root));
      NoneLeft(b0, book, root, n);
      ghost var m1, b1 := mem, book;
      FreeWalk(root, Top(root));
      FreedAll(m0, head0, b0, b1, book, root, n);
      KeptThenSame(m0, b0, m1, b1, mem, book, root);
    }

    /** uvmunmap of the trampoline or the trapframe without freeing it. */
    method DropSpecial(root: nat, va: nat)
      requires Valid() && root in book.flat && (va == TRAMPOLINE || va == TRAPFRAME)
      modifies this
      ensures Valid() && SpecialGone(old(book), book, root, va / PGSIZE) && KeptData(old(mem), old(book), mem, book)
    {
      ghost var m0, head0, b0 := mem, freelist, book;
      UvmUnmap(root, va, 1, false);
      UnmapsUsers(b0, book, root, va / PGSIZE, 1, Held);
      UnmapsSpecial(m0, head0, b0, book, root, va / PGSIZE);
    }

    /** Frees a process's table; the trampoline and trapframe pages stay, their mappings go. */
    method ProcFreePagetable(root: nat, sz: nat)
      requires Valid() && root in book.flat && RoundUp(sz) <= MAXVA
      requires forall v :: v in book.flat[root] ==> Special(v) || v < RoundUp(sz) / PGSIZE
      modifies this
      ensures Valid() && Freed(old(book), book, root) && KeptData(old(mem), old(book), mem, book)
    {
      ghost var b0 := book;
      DropSpecial(root, TRAMPOLINE);
      DropSpecial(root, TRAPFRAME);
      assert b0.flat - {root} == book.flat - {root};
      UvmFree(root, sz);
    }

    /** A new table with just the trampoline and trapframe mapped, or nothing at all. */
    method ProcPagetable(trampoline: nat, trapframe: nat) returns (root: nat)
      requires Valid()
      modifies this
      ensures Valid()
      ensures root != 0 <==> |old(book.free)| >= 3
      ensures root == 0 ==> book.flat == old(book.flat) && book.role == old(book.role)
      ensures root != 0 ==> NewTable(old(book), book, root, KernelMap(trampoline, trapframe))
      ensures root != 0 ==> TableMade(old(book), book, root)
      ensures KeptData(old(mem), old(book), mem, book)
    {
      ghost var m0, head0, b0 := mem, freelist, book;
      root := UvmCreate();
      if root == 0 {
        return;
      }
      NewTableStart(m0, head0, b0, root);
      ThreePages(m0, head0, b0, root);
      ghost var b1 := book;
      var ok := AddTrampoline(root, trampoline, m0, b0);
      if !ok {
        return 0;
      }
      ghost var b2 := book;
      SamePath(b1, b2, root);
      ok := AddTrapframe(root, trampoline, trapframe, m0, b0);
      assert ok;  // it is reached through the same page-table pages
      TopAdded(b0, root);
      PaidOnce(b0, b1, b2, book, Top(root), PathTo(root, VTRAMPOLINE));
    }

    /** The first half of proc_pagetable. */
    method AddTrampoline(root: nat, trampoline: nat, ghost m0: Memory, ghost b0: Book) returns (ok: bool)
      requires Valid() && NewTable(b0, book, root, map[]) && SameData(m0, b0, mem) && m0.Keys == b0.role.Keys
      modifies this
      ensures Valid() && (ok <==> CanPay(old(book), PathTo(root, VTRAMPOLINE), 0))
      ensures ok ==> NewTable(b0, book, root, TrampolineMap(trampoline)) && SameData(m0, b0, mem)
      ensures ok ==> Paid(old(book), book, PathTo(root, VTRAMPOLINE), 0)
      ensures !ok ==> book.flat == b0.flat && book.role == b0.role && KeptData(m0, b0, mem, book)
    {
      ok := MapSpecial(root, TRAMPOLINE, trampoline, TrampolinePte(0).flags, m0, b0, map[]);
      if ok {
        assert map[][VTRAMPOLINE := TrampolinePte(trampoline)] == TrampolineMap(trampoline);
      } else {
        Discard(root, m0, b0);
      }
    }

    /** The second half of proc_pagetable. */
    method AddTrapframe(root: nat, trampoline: nat, trapframe: nat, ghost m0: Memory, ghost b0: Book) returns (ok: bool)
      requires Valid() && NewTable(b0, book, root, TrampolineMap(trampoline)) && SameData(m0, b0, mem)
      requires m0.Keys == b0.role.Keys
      modifies this
      ensures Valid() && KeptData(m0, b0, mem, book)
      ensures ok ==> NewTable(b0, book, root, KernelMap(trampoline, trapframe))
      ensures ok ==> Paid(old(book), book, PathTo(root, VTRAMPOLINE), 0)
      ensures !ok ==> book.flat == b0.flat && book.role == b0.role
      ensures ok <==> CanPay(old(book), PathTo(root, VTRAPFRAME), 0)
    {
      SpecialPaths(root);
      ok := MapSpecial(root, TRAPFRAME, trapframe, TrapframePte(0).flags, m0, b0, TrampolineMap(trampoline));
      if !ok {
        ghost var m1, b1 := mem, book;
        DropSpecial(root, TRAMPOLINE);
        NewTableUnmapped(m0, b0, m1, b1, mem, book, root, trampoline);
        Discard(root, m0, b0);
      }
    }

    /** proc_pagetable's mappages calls. */
    method MapSpecial(root: nat, va: nat, p: nat, flags: Flags, ghost m0: Memory, ghost b0: Book,
                      ghost f: map<nat, Pte>)
      returns (ok: bool)
      requires Valid() && NewTable(b0, book, root, f) && SameData(m0, b0, mem) && m0.Keys == b0.role.Keys
      requires IsLeaf(flags)
      requires (va == TRAMPOLINE || va == TRAPFRAME) && va / PGSIZE !in f
      modifies this
      ensures Valid() && NewTable(b0, book, root, if ok then f[va / PGSIZE := Pte(true, flags, p)] else f)
      ensures SameData(m0, b0, mem)
      ensures ok <==> CanPay(old(book), PathTo(root, va / PGSIZE), 0)
      ensures ok ==> Paid(old(book), book, PathTo(root, va / PGSIZE), 0)
    {
      ghost var m1, b1 := mem, book;
      ok := MapHeld(root, va, p, flags);
      if ok {
        NewTableMaps(b0, b1, book, root, f, va / PGSIZE, p, flags);
      } else {
        NewTableStays(b0, b1, book, root, f, va / PGSIZE, p, flags);
      }
      NewTableData(m0, b0, m1, b1, mem, root, f);
    }

    /** uvmfree(pagetable, 0) on a table without leaves. */
    method Discard(root: nat, ghost m0: Memory, ghost b0: Book)
      requires Valid() && NewTable(b0, book, root, map[]) && SameData(m0, b0, mem)
      modifies this
      ensures Valid() && book.flat == b0.flat && book.role == b0.role && KeptData(m0, b0, mem, book)
    {
      ghost var m1, b1 := mem, book;
      UvmFree(root, 0);
      MadeAndFreed(m0, b0, m1, b1, mem, book, root, map[]);
    }
  }
}
