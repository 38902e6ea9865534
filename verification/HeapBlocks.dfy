/** The blocks of the heap and the steps that move memory between them, in units of one header. */
module HeapBlocks {

  const UNIT := 16  // sizeof(Header)

  /** The headers in memory (ptr and size, by address), the free list from base on, the blocks handed
      out with their sizes, and for each unit got from sbrk the block it is in. */
  datatype Heap = Heap(
    base: nat, brk: nat, ptr: map<nat, nat>, size: map<nat, nat>,
    fl: seq<nat>, live: map<nat, nat>, owner: map<nat, nat>)

  function Next(h: Heap, i: nat): nat
    requires i < |h.fl|
  {
    if i + 1 < |h.fl| then h.fl[i + 1] else h.fl[0]
  }

  predicate IsBlock(h: Heap, a: nat) {
    a in h.fl || a in h.live
  }

  // ---------- the invariant ----------

  ghost predicate LinkOk(h: Heap, i: nat) {
    && i < |h.fl| && h.fl[i] in h.ptr && h.fl[i] in h.size && h.ptr[h.fl[i]] == Next(h, i)
    && (if i == 0 then h.size[h.fl[i]] == 0 else h.size[h.fl[i]] > 0)
  }

  ghost predicate Before(h: Heap, i: nat, j: nat) {
    i < |h.fl| && j < |h.fl| && h.fl[i] in h.size && h.fl[i] + h.size[h.fl[i]] <= h.fl[j] && h.fl[i] < h.fl[j]
  }

  ghost predicate LiveOk(h: Heap, a: nat) {
    a in h.live && a in h.size && h.size[a] == h.live[a] && h.live[a] > 0 && h.base < a && a !in h.fl
  }

  ghost predicate UnitOk(h: Heap, u: nat) {
    && u in h.owner && h.base < u < h.brk && IsBlock(h, h.owner[u]) && h.owner[u] in h.size
    && h.owner[u] <= u < h.owner[u] + h.size[h.owner[u]]
  }

  ghost predicate Owns(h: Heap, a: nat, u: nat) {
    IsBlock(h, a) && a in h.size && a <= u < a + h.size[a] ==> u in h.owner && h.owner[u] == a
  }

  /** The free list is one cycle through base in order of address; every unit is in exactly one block. */
  ghost predicate Inv(h: Heap) {
    && h.fl != [] && h.fl[0] == h.base && h.base < h.brk
    && (forall i {:trigger LinkOk(h, i)} :: 0 <= i < |h.fl| ==> LinkOk(h, i))
    && (forall i, j {:trigger Before(h, i, j)} :: 0 <= i < j < |h.fl| ==> Before(h, i, j))
    && (forall a {:trigger LiveOk(h, a)} :: a in h.live ==> LiveOk(h, a))
    && (forall u {:trigger UnitOk(h, u)} :: u in h.owner ==> UnitOk(h, u))
    && (forall a, u {:trigger Owns(h, a, u)} :: Owns(h, a, u))
  }

  /** Free blocks i and i + 1 do not touch. */
  ghost predicate Apart(h: Heap, i: nat) {
    i + 1 < |h.fl| ==> h.fl[i] in h.size && h.fl[i] + h.size[h.fl[i]] < h.fl[i + 1]
  }

  ghost predicate AllApart(h: Heap) {
    forall i {:trigger Apart(h, i)} :: Apart(h, i)
  }

  /** Two different blocks have no unit in common. */
  lemma BlocksDisjoint(h: Heap, a: nat, b: nat, u: nat)
    requires Inv(h) && IsBlock(h, a) && IsBlock(h, b) && a in h.size && b in h.size
    requires a <= u < a + h.size[a] && b <= u < b + h.size[b]
    ensures a == b
  {
    assert Owns(h, a, u) && Owns(h, b, u);
  }

  function FreeUnits(h: Heap): set<nat> {
    set u | u in h.owner && h.owner[u] in h.fl
  }

  function LiveUnits(h: Heap): set<nat> {
    set u | u in h.owner && h.owner[u] in h.live
  }

  lemma DisjointSizes(a: set<nat>, b: set<nat>)
    requires a !! b
    ensures |a + b| == |a| + |b|
  {
  }

  /** Free and live units together are the units got from sbrk. */
  lemma Conservation(h: Heap)
    requires Inv(h)
    ensures FreeUnits(h) !! LiveUnits(h) && FreeUnits(h) + LiveUnits(h) == h.owner.Keys
    ensures |FreeUnits(h)| + |LiveUnits(h)| == |h.owner|
  {
    forall u | u in h.owner
      ensures u in FreeUnits(h) + LiveUnits(h) && !(u in FreeUnits(h) && u in LiveUnits(h))
    {
      assert UnitOk(h, u);
      assert h.owner[u] in h.live ==> LiveOk(h, h.owner[u]);
    }
    assert FreeUnits(h) + LiveUnits(h) == h.owner.Keys;
    DisjointSizes(FreeUnits(h), LiveUnits(h));
  }

  // ---------- a live block joins the free list ----------

  /** bp lies after free block i and before the next one. */
  ghost predicate InGap(h: Heap, bp: nat, i: nat) {
    i < |h.fl| && h.fl[i] < bp && (i + 1 < |h.fl| ==> bp < h.fl[i + 1])
  }

  function Insert(h: Heap, bp: nat, i: nat): Heap
    requires i < |h.fl|
  {
    h.(ptr := h.ptr[bp := Next(h, i)][h.fl[i] := bp], fl := h.fl[..i + 1] + [bp] + h.fl[i + 1..], live := h.live - {bp})
  }

  lemma GapFits(h: Heap, bp: nat, i: nat, j: nat)
    requires Inv(h) && bp in h.live && InGap(h, bp, i) && j < |h.fl|
    ensures bp in h.size && h.fl[j] in h.size && bp !in h.fl
    ensures j <= i ==> h.fl[j] + h.size[h.fl[j]] <= bp && h.fl[j] < bp
    ensures j > i ==> bp + h.size[bp] <= h.fl[j] && bp < h.fl[j]
  {
    assert LiveOk(h, bp) && LinkOk(h, j);
    assert j < i ==> Before(h, j, i);
    assert i + 1 < j ==> Before(h, i + 1, j);
    assert Owns(h, h.fl[j], bp) && Owns(h, bp, bp);
    assert Owns(h, h.fl[j], h.fl[j]) && Owns(h, bp, h.fl[j]);
  }

  lemma InsertLinks(h: Heap, bp: nat, i: nat)
    requires Inv(h) && bp in h.live && InGap(h, bp, i)
    ensures var g := Insert(h, bp, i); forall j {:trigger LinkOk(g, j)} :: 0 <= j < |g.fl| ==> LinkOk(g, j)
  {
    var g := Insert(h, bp, i);
    assert LiveOk(h, bp);
    forall j | 0 <= j < |g.fl|
      ensures LinkOk(g, j)
    {
      var k := if j <= i then j else if j == i + 1 then i else j - 1;
      assert LinkOk(h, k);
      GapFits(h, bp, i, k);
      assert k != i ==> (if k < i then Before(h, k, i) else Before(h, i, k));
    }
  }

  lemma InsertOrder(h: Heap, bp: nat, i: nat)
    requires Inv(h) && bp in h.live && InGap(h, bp, i)
    ensures var g := Insert(h, bp, i); forall j, k {:trigger Before(g, j, k)} :: 0 <= j < k < |g.fl| ==> Before(g, j, k)
  {
    var g := Insert(h, bp, i);
    forall j, k | 0 <= j < k < |g.fl|
      ensures Before(g, j, k)
    {
      var j0 := if j <= i then j else if j == i + 1 then i else j - 1;
      var k0 := if k <= i then k else if k == i + 1 then i else k - 1;
      GapFits(h, bp, i, j0);
      GapFits(h, bp, i, k0);
      assert j0 < k0 ==> Before(h, j0, k0);
    }
  }

  lemma InsertUnits(h: Heap, bp: nat, i: nat)
    requires Inv(h) && bp in h.live && InGap(h, bp, i)
    ensures var g := Insert(h, bp, i);
            && (forall a :: IsBlock(g, a) <==> IsBlock(h, a))
            && (forall a {:trigger LiveOk(g, a)} :: a in g.live ==> LiveOk(g, a))
            && (forall u {:trigger UnitOk(g, u)} :: u in g.owner ==> UnitOk(g, u))
            && (forall a, u {:trigger Owns(g, a, u)} :: Owns(g, a, u))
  {
    var g := Insert(h, bp, i);
    forall a
      ensures a in g.fl <==> a in h.fl || a == bp
    {
      assert h.fl == h.fl[..i + 1] + h.fl[i + 1..];
    }
    forall a | a in g.live
      ensures LiveOk(g, a)
    {
      assert LiveOk(h, a);
    }
    forall u | u in g.owner
      ensures UnitOk(g, u)
    {
      assert UnitOk(h, u);
    }
    forall a, u
      ensures Owns(g, a, u)
    {
      assert Owns(h, a, u);
    }
  }

  lemma InsertKeeps(h: Heap, bp: nat, i: nat)
    requires Inv(h) && bp in h.live && InGap(h, bp, i)
    ensures Inv(Insert(h, bp, i))
  {
    InsertLinks(h, bp, i);
    InsertOrder(h, bp, i);
    InsertUnits(h, bp, i);
  }

  // ---------- two touching free blocks become one ----------

  predicate Touch(h: Heap, k: nat) {
    k + 1 < |h.fl| && h.fl[k] in h.size && h.fl[k] + h.size[h.fl[k]] == h.fl[k + 1]
  }

  function Merge(h: Heap, k: nat): Heap
    requires k + 1 < |h.fl| && h.fl[k] in h.size && h.fl[k + 1] in h.size && h.fl[k + 1] in h.ptr
  {
    var a, b := h.fl[k], h.fl[k + 1];
    h.(ptr := h.ptr[a := h.ptr[b]], size := h.size[a := h.size[a] + h.size[b]], fl := h.fl[..k + 1] + h.fl[k + 2..],
       owner := map u | u in h.owner :: if h.owner[u] == b then a else h.owner[u])
  }

  lemma MergeFits(h: Heap, k: nat)
    requires Inv(h) && Touch(h, k)
    ensures k >= 1 && h.fl[k + 1] in h.size && h.fl[k + 1] in h.ptr && LinkOk(h, k) && LinkOk(h, k + 1)
    ensures h.fl[k] !in h.live && h.fl[k + 1] !in h.live
  {
    assert LinkOk(h, k) && LinkOk(h, k + 1) && Before(h, k, k + 1);
    assert h.fl[k] in h.live ==> LiveOk(h, h.fl[k]);
    assert h.fl[k + 1] in h.live ==> LiveOk(h, h.fl[k + 1]);
  }

  lemma MergeLinks(h: Heap, k: nat)
    requires Inv(h) && Touch(h, k)
    ensures MergeReady(h, k)
    ensures var g := Merge(h, k); forall j {:trigger LinkOk(g, j)} :: 0 <= j < |g.fl| ==> LinkOk(g, j)
  {
    MergeFits(h, k);
    var g := Merge(h, k);
    forall j | 0 <= j < |g.fl|
      ensures LinkOk(g, j)
    {
      var i := if j <= k then j else j + 1;
      assert LinkOk(h, i);
      assert i < k ==> Before(h, i, k);
      assert k + 1 < i ==> Before(h, k, i);
    }
  }

  predicate MergeReady(h: Heap, k: nat) {
    k + 1 < |h.fl| && h.fl[k] in h.size && h.fl[k + 1] in h.size && h.fl[k + 1] in h.ptr
  }

  lemma MergeOrder(h: Heap, k: nat)
    requires Inv(h) && Touch(h, k)
    ensures MergeReady(h, k)
    ensures var g := Merge(h, k); forall i, j {:trigger Before(g, i, j)} :: 0 <= i < j < |g.fl| ==> Before(g, i, j)
  {
    MergeFits(h, k);
    var g := Merge(h, k);
    forall i, j | 0 <= i < j < |g.fl|
      ensures Before(g, i, j)
    {
      var i0, j0 := if i <= k then i else i + 1, if j <= k then j else j + 1;
      assert Before(h, i0, j0);
      assert k + 1 < j0 ==> Before(h, k + 1, j0);
      assert i0 < k ==> Before(h, i0, k);
      assert k < i0 ==> Before(h, k, i0);
    }
  }

  lemma MergeUnits(h: Heap, k: nat)
    requires Inv(h) && Touch(h, k)
    ensures MergeReady(h, k) && var g := Merge(h, k);
            && (forall a {:trigger LiveOk(g, a)} :: a in g.live ==> LiveOk(g, a))
            && (forall u {:trigger UnitOk(g, u)} :: u in g.owner ==> UnitOk(g, u))
            && (forall a, u {:trigger Owns(g, a, u)} :: Owns(g, a, u))
  {
    MergeFits(h, k);
    var g := Merge(h, k);
    var a, b := h.fl[k], h.fl[k + 1];
    MergedMembers(h, k);
    forall c | c in g.live
      ensures LiveOk(g, c)
    {
      assert LiveOk(h, c);
    }
    forall u | u in g.owner
      ensures UnitOk(g, u)
    {
      assert UnitOk(h, u);
    }
    forall c, u
      ensures Owns(g, c, u)
    {
      assert Owns(h, c, u) && Owns(h, b, u);
    }
  }

  lemma MergedMembers(h: Heap, k: nat)
    requires Inv(h) && Touch(h, k) && MergeReady(h, k)
    ensures forall c :: c in Merge(h, k).fl <==> c in h.fl && c != h.fl[k + 1]
  {
    var g := Merge(h, k);
    forall c | c in h.fl && c != h.fl[k + 1]
      ensures c in g.fl
    {
      var i :| 0 <= i < |h.fl| && h.fl[i] == c;
      assert c == g.fl[if i <= k then i else i - 1];
    }
    forall c | c in g.fl
      ensures c in h.fl && c != h.fl[k + 1]
    {
      var j :| 0 <= j < |g.fl| && g.fl[j] == c;
      var i := if j <= k then j else j + 1;
      assert c == h.fl[i];
      assert i < k + 1 ==> Before(h, i, k + 1);
      assert k + 1 < i ==> Before(h, k + 1, i);
    }
  }

  lemma MergeKeeps(h: Heap, k: nat)
    requires Inv(h) && Touch(h, k)
    ensures k >= 1 && MergeReady(h, k) && Inv(Merge(h, k))
  {
    MergeFits(h, k);
    MergeLinks(h, k);
    MergeOrder(h, k);
    MergeUnits(h, k);
  }

  // ---------- a free block, or its tail, is handed out ----------

  function TakeAll(h: Heap, m: nat): Heap
    requires 1 <= m < |h.fl| && h.fl[m] in h.ptr && h.fl[m] in h.size
  {
    h.(ptr := h.ptr[h.fl[m - 1] := h.ptr[h.fl[m]]],
        fl := h.fl[..m] + h.fl[m + 1..], live := h.live[h.fl[m] := h.size[h.fl[m]]])
  }

  lemma TakeAllMembers(h: Heap, m: nat)
    requires Inv(h) && 1 <= m < |h.fl| && LinkOk(h, m)
    ensures forall c :: c in TakeAll(h, m).fl <==> c in h.fl && c != h.fl[m]
  {
    var g := TakeAll(h, m);
    forall c | c in h.fl && c != h.fl[m]
      ensures c in g.fl
    {
      var i :| 0 <= i < |h.fl| && h.fl[i] == c;
      assert c == g.fl[if i < m then i else i - 1];
    }
    forall c | c in g.fl
      ensures c in h.fl && c != h.fl[m]
    {
      var j :| 0 <= j < |g.fl| && g.fl[j] == c;
      var i := if j < m then j else j + 1;
      assert c == h.fl[i];
      assert if i < m then Before(h, i, m) else Before(h, m, i);
    }
  }

  lemma TakeAllLinks(h: Heap, m: nat)
    requires Inv(h) && 1 <= m < |h.fl| && LinkOk(h, m)
    ensures var g := TakeAll(h, m);
            && (forall j {:trigger LinkOk(g, j)} :: 0 <= j < |g.fl| ==> LinkOk(g, j))
            && (forall i, j {:trigger Before(g, i, j)} :: 0 <= i < j < |g.fl| ==> Before(g, i, j))
  {
    var g := TakeAll(h, m);
    forall j | 0 <= j < |g.fl|
      ensures LinkOk(g, j)
    {
      var i := if j < m then j else j + 1;
      assert LinkOk(h, i);
      assert i < m - 1 ==> Before(h, i, m - 1);
      assert m - 1 < i ==> Before(h, m - 1, i);
    }
    forall i, j | 0 <= i < j < |g.fl|
      ensures Before(g, i, j)
    {
      assert Before(h, if i < m then i else i + 1, if j < m then j else j + 1);
    }
  }

  lemma TakeAllKeeps(h: Heap, m: nat)
    requires Inv(h) && 1 <= m < |h.fl|
    ensures LinkOk(h, m) && h.fl[m] !in h.live && Inv(TakeAll(h, m))
  {
    assert LinkOk(h, m) && Before(h, 0, m);
    var g := TakeAll(h, m);
    TakeAllMembers(h, m);
    TakeAllLinks(h, m);
    assert h.fl[m] in h.live ==> LiveOk(h, h.fl[m]);
    forall a | a in g.live
      ensures LiveOk(g, a)
    {
      assert a in h.live ==> LiveOk(h, a);
    }
    forall u | u in g.owner
      ensures UnitOk(g, u)
    {
      assert UnitOk(h, u);
    }
    forall a, u
      ensures Owns(g, a, u)
    {
      assert Owns(h, a, u);
    }
  }

  /** The last n units of free block m become a block of their own. */
  function TakeTail(h: Heap, m: nat, n: nat): Heap
    requires m < |h.fl| && h.fl[m] in h.size && n < h.size[h.fl[m]]
  {
    var p := h.fl[m];
    var q := p + h.size[p] - n;
    h.(size := h.size[p := h.size[p] - n][q := n], live := h.live[q := n],
       owner := map u | u in h.owner :: if h.owner[u] == p && u >= q then q else h.owner[u])
  }

  lemma TailIsNew(h: Heap, m: nat, n: nat)
    requires Inv(h) && m < |h.fl| && LinkOk(h, m) && 0 < n < h.size[h.fl[m]]
    ensures var q := h.fl[m] + h.size[h.fl[m]] - n; !IsBlock(h, q) && h.base < q
  {
    var p := h.fl[m];
    var q := p + h.size[p] - n;
    assert Owns(h, p, q) && Owns(h, q, q);
    assert 0 < m ==> Before(h, 0, m);
    forall i | 0 <= i < |h.fl|
      ensures h.fl[i] != q
    {
      assert LinkOk(h, i);
      assert i < m ==> Before(h, i, m);
      assert m < i ==> Before(h, m, i);
    }
    assert q in h.live ==> LiveOk(h, q);
  }

  lemma TakeTailLinks(h: Heap, m: nat, n: nat)
    requires Inv(h) && m < |h.fl| && LinkOk(h, m) && 0 < n < h.size[h.fl[m]]
    ensures var g := TakeTail(h, m, n);
            && (forall j {:trigger LinkOk(g, j)} :: 0 <= j < |g.fl| ==> LinkOk(g, j))
            && (forall i, j {:trigger Before(g, i, j)} :: 0 <= i < j < |g.fl| ==> Before(g, i, j))
  {
    var g := TakeTail(h, m, n);
    TailIsNew(h, m, n);
    forall j | 0 <= j < |g.fl|
      ensures LinkOk(g, j)
    {
      assert LinkOk(h, j) && h.fl[j] in h.fl;
      assert j < m ==> Before(h, j, m);
      assert m < j ==> Before(h, m, j);
    }
    forall i, j | 0 <= i < j < |g.fl|
      ensures Before(g, i, j)
    {
      assert Before(h, i, j) && h.fl[i] in h.fl;
      assert i < m ==> Before(h, i, m);
      assert m < i ==> Before(h, m, i);
    }
  }

  lemma TakeTailKeeps(h: Heap, m: nat, n: nat)
    requires Inv(h) && m < |h.fl| && LinkOk(h, m) && 0 < n < h.size[h.fl[m]]
    ensures Inv(TakeTail(h, m, n)) && !IsBlock(h, h.fl[m] + h.size[h.fl[m]] - n)
  {
    var g := TakeTail(h, m, n);
    var p := h.fl[m];
    var q := p + h.size[p] - n;
    TailIsNew(h, m, n);
    TakeTailLinks(h, m, n);
    assert p in h.fl;
    assert p in h.live ==> LiveOk(h, p);
    forall a | a in g.live
      ensures LiveOk(g, a)
    {
      assert a in h.live ==> LiveOk(h, a);
    }
    forall u | u in g.owner
      ensures UnitOk(g, u)
    {
      assert UnitOk(h, u);
    }
    forall a, u
      ensures Owns(g, a, u)
    {
      assert Owns(h, a, u) && Owns(h, p, u);
    }
  }

  // ---------- memory from sbrk ----------

  /** n units at a, above everything so far, as a block handed out. */
  function Extend(h: Heap, a: nat, n: nat): Heap {
    h.(brk := a + n, size := h.size[a := n], live := h.live[a := n],
       owner := map u | u in h.owner.Keys + Units(a, n) :: if u in h.owner then h.owner[u] else a)
  }

  predicate InBlock(u: int, a: nat, n: nat) {
    a <= u < a + n
  }

  function Units(a: nat, n: nat): set<nat> {
    set u: nat | 0 <= u < a + n && InBlock(u, a, n)
  }

  lemma ExtendKeeps(h: Heap, a: nat, n: nat)
    requires Inv(h) && h.brk <= a && n > 0
    ensures Inv(Extend(h, a, n)) && !IsBlock(h, a)
  {
    var g := Extend(h, a, n);
    BlocksBelow(h, a);
    forall i | 0 <= i < |g.fl|
      ensures LinkOk(g, i)
    {
      assert LinkOk(h, i) && h.fl[i] in h.fl;
    }
    forall i, j | 0 <= i < j < |g.fl|
      ensures Before(g, i, j)
    {
      assert Before(h, i, j) && h.fl[i] in h.fl;
    }
    ExtendUnits(h, a, n);
  }

  lemma ExtendUnits(h: Heap, a: nat, n: nat)
    requires Inv(h) && h.brk <= a && n > 0 && !IsBlock(h, a)
    ensures var g := Extend(h, a, n);
            && (forall c {:trigger LiveOk(g, c)} :: c in g.live ==> LiveOk(g, c))
            && (forall u {:trigger UnitOk(g, u)} :: u in g.owner ==> UnitOk(g, u))
            && (forall c, u {:trigger Owns(g, c, u)} :: Owns(g, c, u))
  {
    var g := Extend(h, a, n);
    forall c | c in g.live
      ensures LiveOk(g, c)
    {
      assert c in h.live ==> LiveOk(h, c);
    }
    forall u | u in g.owner
      ensures UnitOk(g, u)
    {
      assert u in h.owner ==> UnitOk(h, u);
    }
    forall c, u
      ensures Owns(g, c, u)
    {
      assert Owns(h, c, u);
      assert u in h.owner ==> UnitOk(h, u);
    }
  }

  lemma BlocksBelow(h: Heap, a: nat)
    requires Inv(h) && h.brk <= a
    ensures !IsBlock(h, a) && a !in h.owner
  {
    assert a in h.owner ==> UnitOk(h, a);
    assert Owns(h, a, a);
    assert a in h.live ==> LiveOk(h, a);
    if a in h.fl {
      var i :| 0 <= i < |h.fl| && h.fl[i] == a;
      assert LinkOk(h, i);
    }
  }
}
