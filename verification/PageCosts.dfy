/** How many free pages it takes to map pages: the pages themselves, and the page-table pages that are not there yet. */
module PageCosts {
  import opened Sv39
  import opened PageTables
  import opened AddressSpaces

  /** The page-table pages below the top one through which the entry of page v is reached. */
  function PathTo(root: nat, v: nat): set<Dir> {
    {Mid(root, v / ENTRIES / ENTRIES), Low(root, v / ENTRIES)}
  }

  function PathsTo(root: nat, vs: set<nat>): set<Dir> {
    set v, d | v in vs && d in PathTo(root, v) :: d
  }

  /** The page-table pages ds are there, and were paid for with free pages where they were not, beside pages others. */
  ghost predicate Paid(b: Book, c: Book, ds: set<Dir>, pages: nat) {
    c.dirs.Keys == b.dirs.Keys + ds && |b.free| == |c.free| + |ds - b.dirs.Keys| + pages
  }

  /** There are enough free pages for the page-table pages ds, and pages others. */
  predicate CanPay(b: Book, ds: set<Dir>, pages: nat) {
    |b.free| >= |ds - b.dirs.Keys| + pages
  }

  lemma PaidNothing(b: Book)
    ensures Paid(b, b, {}, 0)
  {
  }

  lemma PaidFor(b: Book, d: Dir)
    requires d in b.dirs
    ensures Paid(b, b, {d}, 0)
  {
    assert {d} - b.dirs.Keys == {};
  }

  lemma PaidChild(b: Book, d: Dir, p: nat)
    requires b.free != [] && d !in b.dirs
    ensures Paid(b, WithChild(Popped(b), d, p), {d}, 0)
  {
    assert {d} - b.dirs.Keys == {d};
  }

  lemma MoreDirs<T>(a: set<T>, b: set<T>)
    requires a <= b
    ensures |a| <= |b| && (a != b ==> |a| < |b|)
  {
    assert b == a + (b - a);
  }

  lemma SplitDirs<T>(ds: set<T>, es: set<T>, have: set<T>)
    ensures |ds + es - have| == |ds - have| + |es - (have + ds)|
  {
    assert ds + es - have == (ds - have) + (es - (have + ds));
  }

  /** One payment after another. */
  lemma PaidMore(b: Book, c: Book, d: Book, ds: set<Dir>, es: set<Dir>, p: nat, q: nat)
    requires Paid(b, c, ds, p) && Paid(c, d, es, q)
    ensures Paid(b, d, ds + es, p + q)
  {
    SplitDirs(ds, es, b.dirs.Keys);
  }

  /** What is left to pay can be paid if and only if everything could. */
  lemma PayRest(b: Book, c: Book, ds: set<Dir>, es: set<Dir>, p: nat, q: nat)
    requires Paid(b, c, ds, p)
    ensures CanPay(b, ds + es, p + q) <==> CanPay(c, es, q)
  {
    SplitDirs(ds, es, b.dirs.Keys);
  }

  lemma PayLess(b: Book, ds: set<Dir>, es: set<Dir>, p: nat, q: nat)
    requires ds <= es && p <= q && CanPay(b, es, q)
    ensures CanPay(b, ds, p)
  {
    MoreDirs(ds - b.dirs.Keys, es - b.dirs.Keys);
  }

  // ---------- walk ----------

  /** The page-table page that walk is at, level levels above the lowest. */
  function DirAt(root: nat, va: nat, level: nat): Dir {
    if level == 2 then Top(root)
    else if level == 1 then Mid(root, va / PGSIZE / ENTRIES / ENTRIES)
    else Low(root, va / PGSIZE / ENTRIES)
  }

  /** Those that it has come through, without the top one. */
  function DirsAbove(root: nat, va: nat, level: nat): set<Dir> {
    if level == 2 then {} else if level == 1 then {DirAt(root, va, 1)} else PathTo(root, va / PGSIZE)
  }

  lemma ChildAt(root: nat, va: nat, level: nat)
    requires va < MAXVA && 1 <= level <= 2
    ensures Px(level, va) < ENTRIES && Child(DirAt(root, va, level), Px(level, va)) == DirAt(root, va, level - 1)
  {
    IndicesArePages(va, 0, 0, 0);
  }

  lemma PayLevel(b: Book, c: Book, d: Book, root: nat, va: nat, level: nat, ok: bool)
    requires 1 <= level <= 2 && Paid(b, c, DirsAbove(root, va, level), 0)
    requires if ok then Paid(c, d, {DirAt(root, va, level - 1)}, 0)
             else c.free == [] && DirAt(root, va, level - 1) !in c.dirs
    ensures ok ==> Paid(b, d, DirsAbove(root, va, level - 1), 0)
    ensures !ok ==> !CanPay(b, PathTo(root, va / PGSIZE), 0)
  {
    AboveNext(root, va, level);
    if ok {
      PaidMore(b, c, d, DirsAbove(root, va, level), {DirAt(root, va, level - 1)}, 0, 0);
    } else {
      PayFails(b, c, DirsAbove(root, va, level), DirAt(root, va, level - 1), PathTo(root, va / PGSIZE));
    }
  }

  lemma AboveNext(root: nat, va: nat, level: nat)
    requires 1 <= level <= 2
    ensures DirsAbove(root, va, level) + {DirAt(root, va, level - 1)} == DirsAbove(root, va, level - 1)
    ensures DirsAbove(root, va, level - 1) <= PathTo(root, va / PGSIZE)
  {
  }

  lemma PayFails(b: Book, c: Book, ds: set<Dir>, d: Dir, all: set<Dir>)
    requires Paid(b, c, ds, 0) && c.free == [] && d !in c.dirs && ds + {d} <= all
    ensures !CanPay(b, all, 0)
  {
    PayRest(b, c, ds, {d}, 0, 0);
    assert {d} - c.dirs.Keys == {d};
    if CanPay(b, all, 0) {
      PayLess(b, ds + {d}, all, 0, 0);
    }
  }

  // ---------- several pages ----------

  function PathsFor(root: nat, vpn: nat, n: nat): set<Dir> {
    PathsTo(root, VRange(vpn, n))
  }

  lemma PathsMore(root: nat, vs: set<nat>, v: nat)
    ensures PathsTo(root, vs + {v}) == PathsTo(root, vs) + PathTo(root, v)
  {
  }

  lemma PathsWithin(root: nat, vs: set<nat>, ws: set<nat>)
    requires vs <= ws
    ensures PathsTo(root, vs) <= PathsTo(root, ws)
  {
  }

  lemma PathsStart(b: Book, root: nat, vpn: nat)
    ensures PathsTo(root, {}) == PathsFor(root, vpn, 0) == {} && Paid(b, b, PathsFor(root, vpn, 0), 0)
  {
    assert VRange(vpn, 0) == {};
  }

  /** The next page v of those in all, which are in vs up to now, is paid for or cannot be. */
  lemma NextPaid(b: Book, c: Book, d: Book, root: nat, vs: set<nat>, v: nat, p: nat, q: nat)
    requires Paid(b, c, PathsTo(root, vs), p) && Paid(c, d, PathTo(root, v), q)
    ensures Paid(b, d, PathsTo(root, vs + {v}), p + q)
  {
    PathsMore(root, vs, v);
    PaidMore(b, c, d, PathsTo(root, vs), PathTo(root, v), p, q);
  }

  lemma NextNotPaid(b: Book, c: Book, root: nat, vs: set<nat>, v: nat, p: nat, q: nat, all: set<nat>, total: nat)
    requires Paid(b, c, PathsTo(root, vs), p) && !CanPay(c, PathTo(root, v), q) && vs + {v} <= all && p + q <= total
    ensures !CanPay(b, PathsTo(root, all), total)
  {
    PathsMore(root, vs, v);
    PathsWithin(root, vs + {v}, all);
    PayRest(b, c, PathsTo(root, vs), PathTo(root, v), p, q);
    if CanPay(b, PathsTo(root, all), total) {
      PayLess(b, PathsTo(root, vs + {v}), PathsTo(root, all), p + q, total);
    }
  }

  lemma VRangeNext(vpn: nat, n: nat, v: nat, m: nat)
    requires v == vpn + n && m == n + 1
    ensures VRange(vpn, m) == VRange(vpn, n) + {v}
  {
  }

  lemma RangePaid(b: Book, c: Book, d: Book, root: nat, vpn: nat, n: nat, m: nat, v: nat, p: nat, q: nat)
    requires Paid(b, c, PathsFor(root, vpn, n), p) && Paid(c, d, PathTo(root, v), q) && v == vpn + n && m == n + 1
    ensures Paid(b, d, PathsFor(root, vpn, m), p + q)
  {
    VRangeNext(vpn, n, v, m);
    NextPaid(b, c, d, root, VRange(vpn, n), v, p, q);
  }

  lemma RangeNotPaid(b: Book, c: Book, root: nat, vpn: nat, n: nat, v: nat, p: nat, q: nat, count: nat, total: nat)
    requires Paid(b, c, PathsFor(root, vpn, n), p) && !CanPay(c, PathTo(root, v), q)
    requires v == vpn + n && n < count && p + q <= total
    ensures !CanPay(b, PathsFor(root, vpn, count), total)
  {
    assert VRange(vpn, n) + {v} <= VRange(vpn, count);
    NextNotPaid(b, c, root, VRange(vpn, n), v, p, q, VRange(vpn, count), total);
  }

  lemma PaidCan(b: Book, c: Book, ds: set<Dir>, p: nat)
    requires Paid(b, c, ds, p)
    ensures CanPay(b, ds, p)
  {
  }

  lemma PathsOne(root: nat, v: nat)
    ensures PathsFor(root, v, 1) == PathTo(root, v)
  {
    assert VRange(v, 1) == {v};
  }

  /** A page is taken, and then mapped if there is enough left for its path. */
  lemma FreshPaid(b: Book, c: Book, d: Book, path: set<Dir>, ok: bool)
    requires b.free != [] && c == Popped(b) && (ok <==> CanPay(c, path, 0)) && (ok ==> Paid(c, d, path, 0))
    ensures ok <==> CanPay(b, path, 1)
    ensures ok ==> Paid(b, d, path, 1)
  {
  }

  /** The pages from vpn on that come before the special ones. */
  function BelowTrap(vpn: nat): nat {
    if vpn < VTRAPFRAME then VTRAPFRAME - vpn else 0
  }

  /** uvmalloc goes into the special pages and finds memory for one more. */
  predicate RunsInto(b: Book, root: nat, vpn: nat, count: nat) {
    vpn + count > VTRAPFRAME && count > 0 && CanPay(b, PathsFor(root, vpn, BelowTrap(vpn)), BelowTrap(vpn) + 1)
  }

  /** When growing from oldsz to newsz comes to its end, and when it panics. */
  ghost predicate GrowthEnds(b: Book, root: nat, oldsz: nat, newsz: nat, ok: bool, panicked: bool) {
    SpanEnds(b, root, newsz, FirstPage(oldsz), PagesBetween(oldsz, newsz), ok, panicked)
  }

  ghost predicate SpanEnds(b: Book, root: nat, newsz: nat, vpn: nat, count: nat, ok: bool, panicked: bool) {
    && (panicked <==> RunsInto(b, root, vpn, count))
    && (ok <==> (count == 0 || newsz <= TRAPFRAME) && CanPay(b, PathsFor(root, vpn, count), count))
  }

  /** How the loop of uvmalloc ends before its count-th page. */
  lemma GrowthStops(b: Book, c: Book, root: nat, vpn: nat, n: nat, v: nat, count: nat, panicked: bool)
    requires Paid(b, c, PathsFor(root, vpn, n), n) && n < count && v == vpn + n && (v <= VTRAPFRAME || n == 0)
    requires if v < VTRAPFRAME then !panicked && !CanPay(c, PathTo(root, v), 1) else panicked <==> c.free != []
    ensures panicked <==> RunsInto(b, root, vpn, count)
    ensures !panicked && v < VTRAPFRAME ==> !CanPay(b, PathsFor(root, vpn, count), count)
  {
    var m := BelowTrap(vpn);
    if v < VTRAPFRAME {
      RangeNotPaid(b, c, root, vpn, n, v, n, 1, m, m + 1);
      RangeNotPaid(b, c, root, vpn, n, v, n, 1, count, count);
    } else {
      assert n == m;
      PayRest(b, c, PathsFor(root, vpn, n), {}, n, 1);
      assert PathsFor(root, vpn, n) + {} == PathsFor(root, vpn, n);
    }
  }

  // ---------- copying a table ----------

  /** The pages of the given table that come before the n-th and before the special ones. */
  function ToCopy(b: Book, src: nat, n: nat): set<nat>
    requires src in b.flat
  {
    Below(b.flat[src], if n < VTRAPFRAME then n else VTRAPFRAME)
  }

  /** When copying count pages comes to its end, and when it runs into the special ones and panics. */
  ghost predicate CopyEnds(b: Book, src: nat, dst: nat, count: nat, ok: bool, panicked: bool) {
    src in b.flat &&
    var vs := ToCopy(b, src, count);
    && (ok <==> count <= VTRAPFRAME && CanPay(b, PathsTo(dst, vs), |vs|))
    && (panicked <==> count > VTRAPFRAME && CanPay(b, PathsTo(dst, vs), |vs| + 1))
  }

  /** The first n pages have been copied. */
  ghost predicate CopyPaid(b: Book, c: Book, src: nat, dst: nat, n: nat) {
    src in b.flat && Paid(b, c, PathsTo(dst, Below(b.flat[src], n)), |Below(b.flat[src], n)|)
  }

  lemma CopyStart(b: Book, src: nat, dst: nat)
    requires src in b.flat
    ensures CopyPaid(b, b, src, dst, 0)
  {
    assert Below(b.flat[src], 0) == {};
    PathsStart(b, dst, 0);
  }

  lemma BelowNext(f: map<nat, Pte>, v: nat)
    ensures Below(f, v + 1) == if v in f then Below(f, v) + {v} else Below(f, v)
    ensures |Below(f, v + 1)| == |Below(f, v)| + if v in f then 1 else 0
  {
    assert Below(f, v + 1) == if v in f then Below(f, v) + {v} else Below(f, v);
  }

  lemma BelowWithin(f: map<nat, Pte>, n: nat, m: nat)
    requires n <= m
    ensures Below(f, n) <= Below(f, m) && |Below(f, n)| <= |Below(f, m)|
  {
    MoreDirs(Below(f, n), Below(f, m));
  }

  lemma CopyNextPaid(b: Book, c: Book, d: Book, src: nat, dst: nat, v: nat)
    requires CopyPaid(b, c, src, dst, v)
    requires if v in b.flat[src] then Paid(c, d, PathTo(dst, v), 1) else d == c
    ensures CopyPaid(b, d, src, dst, v + 1)
  {
    BelowNext(b.flat[src], v);
    if v in b.flat[src] {
      NextPaid(b, c, d, dst, Below(b.flat[src], v), v, |Below(b.flat[src], v)|, 1);
    }
  }

  lemma CopyDone(b: Book, c: Book, src: nat, dst: nat, count: nat)
    requires CopyPaid(b, c, src, dst, count) && count <= VTRAPFRAME
    ensures CopyEnds(b, src, dst, count, true, false)
  {
    assert ToCopy(b, src, count) == Below(b.flat[src], count);
  }

  lemma CopyNotPaid(b: Book, c: Book, src: nat, dst: nat, v: nat, m: nat)
    requires CopyPaid(b, c, src, dst, v) && v < m && v in b.flat[src] && !CanPay(c, PathTo(dst, v), 1)
    ensures !CanPay(b, PathsTo(dst, Below(b.flat[src], m)), |Below(b.flat[src], m)|)
  {
    var f := b.flat[src];
    BelowNext(f, v);
    BelowWithin(f, v + 1, m);
    NextNotPaid(b, c, dst, Below(f, v), v, |Below(f, v)|, 1, Below(f, m), |Below(f, m)|);
  }

  lemma CopyOneMore(b: Book, c: Book, src: nat, dst: nat, v: nat)
    requires CopyPaid(b, c, src, dst, v)
    ensures CanPay(b, PathsTo(dst, Below(b.flat[src], v)), |Below(b.flat[src], v)| + 1) <==> c.free != []
  {
    var now := Below(b.flat[src], v);
    PayRest(b, c, PathsTo(dst, now), {}, |now|, 1);
    assert PathsTo(dst, now) + {} == PathsTo(dst, now);
  }

  /** How the loop of uvmcopy ends before its count-th page. */
  lemma CopyStops(b: Book, c: Book, src: nat, dst: nat, v: nat, count: nat, panicked: bool)
    requires CopyPaid(b, c, src, dst, v) && v < count && v <= VTRAPFRAME && v in b.flat[src]
    requires if v < VTRAPFRAME then !panicked && !CanPay(c, PathTo(dst, v), 1) else panicked <==> c.free != []
    ensures CopyEnds(b, src, dst, count, false, panicked)
  {
    if v < VTRAPFRAME {
      CopyNotPaid(b, c, src, dst, v, if count < VTRAPFRAME then count else VTRAPFRAME);
    } else {
      CopyOneMore(b, c, src, dst, v);
    }
  }

  // ---------- a new table ----------

  /** What a new table has taken from the free list: its top page first, and two more. */
  ghost predicate TableMade(b: Book, c: Book, root: nat) {
    && |b.free| >= 3 && root == b.free[0] && |c.free| == |b.free| - 3
    && c.dirs.Keys == b.dirs.Keys + {Top(root)} + PathTo(root, VTRAMPOLINE)
  }

  lemma SpecialPaths(root: nat)
    ensures PathTo(root, VTRAPFRAME) == PathTo(root, VTRAMPOLINE) && |PathTo(root, VTRAMPOLINE)| == 2
  {
    assert VTRAPFRAME / ENTRIES == VTRAMPOLINE / ENTRIES;
  }

  /** A path that leads to no page of the book. */
  lemma NewPath(m: Memory, head: nat, b: Book, root: nat, v: nat)
    requires Inv(m, head, b) && root !in b.flat
    ensures PathTo(root, v) !! b.dirs.Keys
  {
    forall d | d in PathTo(root, v)
      ensures d !in b.dirs
    {
      assert d in b.dirs ==> DirOk(m, b, d);
    }
  }

  /** proc_pagetable takes the top page, and two on the way to the trampoline. */
  lemma ThreePages(m: Memory, head: nat, b: Book, root: nat)
    requires Inv(m, head, b) && b.free != [] && root !in b.flat
    ensures CanPay(WithTop(Popped(b), root), PathTo(root, VTRAMPOLINE), 0) <==> |b.free| >= 3
    ensures PathTo(root, VTRAMPOLINE) !! WithTop(Popped(b), root).dirs.Keys && |PathTo(root, VTRAMPOLINE)| == 2
  {
    var c, path := WithTop(Popped(b), root), PathTo(root, VTRAMPOLINE);
    SpecialPaths(root);
    NewPath(m, head, b, root, VTRAMPOLINE);
    assert path - c.dirs.Keys == path;
  }

  lemma PaidAll(b: Book, c: Book, ds: set<Dir>)
    requires Paid(b, c, ds, 0) && ds !! b.dirs.Keys
    ensures |c.free| == |b.free| - |ds| && c.dirs.Keys == b.dirs.Keys + ds
  {
    assert ds - b.dirs.Keys == ds;
  }

  lemma PaidAlready(b: Book, c: Book, ds: set<Dir>)
    requires Paid(b, c, ds, 0) && ds <= b.dirs.Keys
    ensures |c.free| == |b.free| && c.dirs.Keys == b.dirs.Keys
  {
    assert ds - b.dirs.Keys == {};
  }

  lemma PaidOnce(b: Book, b1: Book, b2: Book, c: Book, d: Dir, path: set<Dir>)
    requires Paid(b1, b2, path, 0) && Paid(b2, c, path, 0) && path !! b1.dirs.Keys
    requires b.free != [] && |b1.free| == |b.free| - 1 && b1.dirs.Keys == b.dirs.Keys + {d}
    ensures |c.free| == |b.free| - 1 - |path| && c.dirs.Keys == b.dirs.Keys + {d} + path
  {
    PaidAll(b1, b2, path);
    PaidAlready(b2, c, path);
  }

  lemma TopAdded(b: Book, root: nat)
    requires b.free != []
    ensures var c := WithTop(Popped(b), root); |c.free| == |b.free| - 1 && c.dirs.Keys == b.dirs.Keys + {Top(root)}
  {
  }

  /** The trapframe page is reached through the same ones. */
  lemma SamePath(b: Book, c: Book, root: nat)
    requires Paid(b, c, PathTo(root, VTRAMPOLINE), 0)
    ensures CanPay(c, PathTo(root, VTRAPFRAME), 0)
  {
    SpecialPaths(root);
    assert PathTo(root, VTRAMPOLINE) - c.dirs.Keys == {};
  }
}
