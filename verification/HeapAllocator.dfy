/** malloc and free over an address-ordered circular list. Addresses count headers; 0 is the null pointer. */
module HeapAllocator {
  import opened HeapBlocks

  class Allocator {
    const base: nat
    var freep: nat
    var ptr: map<nat, nat>
    var size: map<nat, nat>
    var brk: nat
    ghost var fl: seq<nat>
    ghost var live: map<nat, nat>
    ghost var owner: map<nat, nat>

    ghost function State(): Heap
      reads this
    {
      Heap(base, brk, ptr, size, fl, live, owner)
    }

    ghost predicate Valid()
      reads this
    {
      && 0 < base < brk
      && (freep == 0 ==> fl == [] && live == map[] && owner == map[])
      && (freep != 0 ==> Inv(State()) && AllApart(State()) && freep in fl)
    }

    constructor (b: nat, end: nat)
      requires 0 < b < end
      ensures Valid() && live == map[] && owner == map[] && base == b && brk == end
    {
      base, brk, freep := b, end, 0;
      ptr, size, fl, live, owner := map[], map[], [], map[], map[];
    }

    /** The search of free: the free block that the block at bp comes after. */
    method FindGap(bp: nat) returns (p: nat)
      requires Valid() && bp in live
      ensures var i := GapOf(State(), bp); InGap(State(), bp, i) && p == fl[i]
    {
      p := freep;
      ghost var i := GapOf(State(), bp);
      ghost var m :| 0 <= m < |fl| && fl[m] == p;
      assert LinkOk(State(), m);
      while !(bp > p && bp < ptr[p])
        invariant 0 <= m < |fl| && p == fl[m] && p in ptr && ptr[p] == Next(State(), m)
        decreases if m <= i then i - m else i + |fl| - m
      {
        ghost var h := State();
        assert LiveOk(h, bp);
        assert 0 < m ==> Before(h, 0, m);
        assert m + 1 < |fl| ==> Before(h, m, m + 1);
        if p >= ptr[p] && (bp > p || bp < ptr[p]) {
          OnlyGap(h, bp, i, m);
          return;
        }
        m := if m + 1 < |fl| then m + 1 else 0;
        assert LinkOk(h, m);
        p := ptr[p];
      }
      assert LiveOk(State(), bp);
      assert 0 < m ==> Before(State(), 0, m);
      OnlyGap(State(), bp, i, m);
    }

    /** Gives a block back; it is merged with the free blocks that it touches. */
    method Free(ap: nat) returns (ghost at: nat)
      requires Valid() && ap > 0 && ap - 1 in live
      modifies this`ptr, this`size, this`freep, this`fl, this`live, this`owner
      ensures Valid() && freep != 0 && live == old(live) - {ap - 1} && owner.Keys == old(owner).Keys
      ensures at < |fl| && fl[at] in size && size[fl[at]] >= old(live)[ap - 1]
    {
      var bp := ap - 1;
      var p := FindGap(bp);
      ghost var h, i := State(), GapOf(State(), bp);
      assert 0 < i ==> Before(h, 0, i);
      JoinUp(p, bp, i);
      FreedUpKeeps(h, bp, i);
      JoinDown(p, bp, i, h);
      freep := p;
      ghost var g := Freed(h, bp, i);
      FreedKeeps(h, bp, i);
      FreedFits(h, bp, i);
      fl, live, owner := g.fl, g.live, g.owner;
      assert State() == g;
      at := if Touch(FreedUp(h, bp, i), i) then i else i + 1;
    }

    /** free's first test: the next block begins where this one ends. */
    method JoinUp(p: nat, bp: nat, ghost i: nat)
      requires freep != 0 && Valid() && bp in live && InGap(State(), bp, i) && p == fl[i]
      modifies this`ptr, this`size
      ensures p in ptr && size == FreedUp(old(State()), bp, i).size && ptr[p := bp] == FreedUp(old(State()), bp, i).ptr
      ensures bp in ptr && ptr[bp] == FreedUp(old(State()), bp, i).ptr[bp]
    {
      ghost var h := State();
      FreedFits(h, bp, i);
      InsertKeeps(h, bp, i);
      ReadyToMerge(Insert(h, bp, i), i + 1);
      if bp + size[bp] == ptr[p] {
        var next := ptr[p];
        size := size[bp := size[bp] + size[next]];
        ptr := ptr[bp := ptr[next]];
      } else {
        ptr := ptr[bp := ptr[p]];
      }
    }

    /** free's second test: this block begins where the previous one ends. */
    method JoinDown(p: nat, bp: nat, ghost i: nat, ghost h: Heap)
      requires Inv(h) && AllApart(h) && bp in h.live && InGap(h, bp, i) && p == h.fl[i] && p in size && bp in size
      requires size == FreedUp(h, bp, i).size && bp in ptr && bp in FreedUp(h, bp, i).ptr
      requires ptr[p := bp] == FreedUp(h, bp, i).ptr && ptr[bp] == FreedUp(h, bp, i).ptr[bp]
      modifies this`ptr, this`size
      ensures size == Freed(h, bp, i).size && ptr == Freed(h, bp, i).ptr
    {
      ghost var g := FreedUp(h, bp, i);
      FreedUpKeeps(h, bp, i);
      ReadyToMerge(g, i);
      if p + size[p] == bp {
        size := size[p := size[p] + size[bp]];
        ptr := ptr[p := ptr[bp]];
      } else {
        ptr := ptr[p := bp];
      }
    }

    /** Gets at least nu units from sbrk, which may fail or leave a gap, and frees them. */
    method MoreCore(nu: nat, sbrkOk: bool, gap: nat) returns (p: nat, ghost at: nat)
      requires Valid() && freep != 0 && 0 < nu && nu * UNIT < 0x8000_0000
      modifies this
      ensures Valid() && freep != 0 && live == old(live) && p == (if sbrkOk then freep else 0)
      ensures !sbrkOk ==> State() == old(State()) && freep == old(freep)
      ensures sbrkOk ==> owner.Keys == old(owner).Keys + Units(old(brk) + gap, AtLeast(nu))
      ensures sbrkOk ==> brk == old(brk) + gap + AtLeast(nu)
      ensures sbrkOk ==> at < |fl| && fl[at] in size && size[fl[at]] >= nu
    {
      at := 0;
      var n := if nu < 4096 then 4096 else nu;
      if !sbrkOk {
        return 0, 0;
      }
      var hp := brk + gap;
      Enlarge(hp, n);
      at := Free(hp + 1);
      p := freep;
    }

    /** The area that sbrk has returned, as a block handed out. */
    method Enlarge(hp: nat, n: nat)
      requires Valid() && freep != 0 && brk <= hp && n > 0
      modifies this`size, this`brk, this`live, this`owner
      ensures Valid() && hp !in old(live) && live == old(live)[hp := n] && owner.Keys == old(owner).Keys + Units(hp, n)
      ensures brk == hp + n
    {
      ghost var h := State();
      ExtendKeeps(h, hp, n);
      ExtendApart(h, hp, n);
      ghost var g := Extend(h, hp, n);
      size := size[hp := n];
      brk := hp + n;
      live, owner := g.live, g.owner;
      assert State() == g;
    }

    /** malloc's return paths: block m of the list, or the tail of it. */
    method Carve(prevp: nat, p: nat, nunits: nat, ghost m: nat) returns (q: nat)
      requires Valid() && freep != 0 && 1 <= m < |fl| && p == fl[m] && prevp == fl[m - 1] && p in size && p in ptr
      requires 0 < nunits <= size[p]
      modifies this`ptr, this`size, this`freep, this`fl, this`live, this`owner
      ensures Valid() && freep != 0 && q != 0 && q !in old(live) && live == old(live)[q := nunits]
      ensures owner.Keys == old(owner).Keys
      ensures base < q && forall u :: q <= u < q + nunits ==> u in old(owner) && old(owner)[u] in old(fl)
    {
      CarvedFits(State(), m, nunits);
      if size[p] == nunits {
        CarveAll(prevp, p, m);
        q := p;
      } else {
        q := CarveTail(p, nunits, m);
      }
      freep := prevp;
    }

    method CarveAll(prevp: nat, p: nat, ghost m: nat)
      requires freep != 0 && Valid() && 1 <= m < |fl| && p == fl[m] && prevp == fl[m - 1] && p in size && p in ptr
      modifies this`ptr, this`fl, this`live
      ensures Inv(State()) && AllApart(State()) && prevp in fl && live == old(live)[p := size[p]]
    {
      ghost var h := State();
      TakeAllKeeps(h, m);
      TakeAllApart(h, m);
      ghost var g := TakeAll(h, m);
      ptr := ptr[prevp := ptr[p]];
      fl, live := g.fl, g.live;
      assert State() == g && g.fl[m - 1] == prevp;
    }

    method CarveTail(p: nat, nunits: nat, ghost m: nat) returns (q: nat)
      requires freep != 0 && Valid() && 1 <= m < |fl| && p == fl[m] && p in size && 0 < nunits < size[p]
      modifies this`size, this`live, this`owner
      ensures Inv(State()) && AllApart(State()) && q == p + old(size)[p] - nunits && live == old(live)[q := nunits]
      ensures owner.Keys == old(owner).Keys
    {
      ghost var h := State();
      assert LinkOk(h, m);
      TakeTailKeeps(h, m, nunits);
      TakeTailApart(h, m, nunits);
      ghost var g := TakeTail(h, m, nunits);
      size := size[p := size[p] - nunits];
      q := p + size[p];
      size := size[q := nunits];
      live, owner := g.live, g.owner;
      assert State() == g;
    }

    /** malloc's first call makes the list that holds base alone. */
    method Start()
      requires Valid()
      modifies this
      ensures Valid() && freep != 0 && live == old(live) && owner == old(owner) && brk == old(brk)
      ensures old(freep) != 0 ==> State() == old(State()) && freep == old(freep)
      ensures old(freep) == 0 ==> fl == [base] && base in size && size[base] == 0
    {
      if freep == 0 {
        ptr := ptr[base := base];
        freep := base;
        size := size[base := 0];
        fl := [base];
        assert LinkOk(State(), 0);
      }
    }

    /** morecore, and where the search goes on. */
    method Refill(nu: nat, sbrkOk: bool, gap: nat) returns (p: nat, ghost f: nat, ghost at: nat)
      requires Valid() && freep != 0 && 0 < nu && nu * UNIT < 0x8000_0000
      modifies this
      ensures Valid() && freep != 0 && live == old(live) && p == (if sbrkOk then freep else 0)
      ensures !sbrkOk ==> State() == old(State()) && freep == old(freep)
      ensures sbrkOk ==> owner.Keys == old(owner).Keys + Units(old(brk) + gap, AtLeast(nu))
      ensures sbrkOk ==> at < |fl| && fl[at] in size && size[fl[at]] >= nu
      ensures f < |fl| && fl[f] == freep && Passed(State(), f, Succ(f, |fl|), nu)
    {
      p, at := MoreCore(nu, sbrkOk, gap);
      f :| f < |fl| && fl[f] == freep;
      assert forall j: nat :: j < |fl| ==> !Between(f, Succ(f, |fl|), j) || |fl| == 1;
    }

    /** At least nbytes bytes that no live block has, or null when no free block is large enough and
        sbrk fails. */
    method Malloc(nbytes: nat, sbrkOk: bool, gap: nat) returns (ap: nat)
      requires Valid() && UnitsFor(nbytes) * UNIT < 0x8000_0000
      modifies this
      ensures Valid() && freep != 0
      ensures ap == 0 <==> !sbrkOk && !HasBlock(old(State()), UnitsFor(nbytes))
      ensures ap == 0 ==> live == old(live) && owner == old(owner) && TooSmall(State(), UnitsFor(nbytes))
      ensures ap != 0 ==> ap - 1 !in old(live) && live == old(live)[ap - 1 := UnitsFor(nbytes)]
      ensures ap != 0 ==> var n := UnitsFor(nbytes); (n - 2) * UNIT < nbytes <= (n - 1) * UNIT
      ensures owner.Keys ==
              if HasBlock(old(State()), UnitsFor(nbytes)) || !sbrkOk then old(owner).Keys
              else old(owner).Keys + Units(old(brk) + gap, AtLeast(UnitsFor(nbytes)))
    {
      var nunits := (nbytes + UNIT - 1) / UNIT + 1;
      Start();
      var prevp := freep;
      assert nunits == UnitsFor(nbytes);
      ghost var h0 := State();
      NewList(old(State()), h0, nunits);
      ghost var f: nat :| f < |fl| && fl[f] == freep;
      ghost var m: nat, grown, at: nat := f, false, 0;
      assert LinkOk(State(), f);
      var p := ptr[prevp];
      while true
        invariant Valid() && freep != 0 && live == old(live) && f < |fl| && m < |fl| && freep == fl[f] && prevp == fl[m]
        invariant p == Next(State(), m) && Passed(State(), f, Succ(m, |fl|), nunits)
        invariant grown ==> at < |fl| && fl[at] in size && size[fl[at]] >= nunits && sbrkOk && TooSmall(h0, nunits) &&
                            owner.Keys == old(owner).Keys + Units(old(brk) + gap, AtLeast(nunits))
        invariant !grown ==> State() == h0
        decreases !grown, Left(f, Succ(m, |fl|), |fl|)
      {
        ghost var h, k := State(), Succ(m, |fl|);
        assert LinkOk(h, k);
        if size[p] >= nunits {
          assert !grown ==> !Small(h0, k, nunits);
          ap := Carve(prevp, p, nunits, k);
          ap := ap + 1;
          return;
        }
        if p == freep {
          WholeRound(h, f, k, nunits);
          assert grown ==> Small(h, at, nunits);
          p, f, at := Refill(nunits, sbrkOk, gap);
          if p == 0 {
            return 0;
          }
          grown, k := true, f;
        } else {
          PassOne(h, f, k, nunits);
        }
        m := k;
        assert LinkOk(State(), m);
        prevp := p;
        p := ptr[p];
      }
    }
  }

  /** The gap of a block: there is one, and only one. */
  ghost function GapOf(h: Heap, bp: nat): (i: nat)
    requires Inv(h) && bp in h.live
    ensures InGap(h, bp, i)
  {
    assert LiveOk(h, bp);
    GapFrom(h, bp, 0)
  }

  ghost function GapFrom(h: Heap, bp: nat, k: nat): (i: nat)
    requires k < |h.fl| && h.fl[k] < bp && bp !in h.fl
    ensures InGap(h, bp, i)
    decreases |h.fl| - k
  {
    if k + 1 < |h.fl| && h.fl[k + 1] < bp then GapFrom(h, bp, k + 1) else k
  }

  lemma OnlyGap(h: Heap, bp: nat, i: nat, m: nat)
    requires Inv(h) && InGap(h, bp, i) && m < |h.fl|
    ensures h.fl[m] < bp && (m + 1 < |h.fl| ==> bp < h.fl[m + 1]) ==> m == i
  {
    assert i < m ==> Before(h, i, m);
    assert m < i ==> Before(h, m, i);
    assert i + 1 < m ==> Before(h, i + 1, m);
    assert m + 1 < i ==> Before(h, m + 1, i);
  }

  // ---------- what free leaves ----------

  function FreedUp(h: Heap, bp: nat, i: nat): Heap
    requires i < |h.fl|
  {
    var g := Insert(h, bp, i);
    if MergeReady(g, i + 1) && Touch(g, i + 1) then Merge(g, i + 1) else g
  }

  /** The heap after free: the block in its place, merged with the next one and the one before. */
  function Freed(h: Heap, bp: nat, i: nat): Heap
    requires i < |h.fl|
  {
    var g := FreedUp(h, bp, i);
    if MergeReady(g, i) && Touch(g, i) then Merge(g, i) else g
  }

  /** Free blocks do not touch, except perhaps those from index lo up to hi and their next ones. */
  ghost predicate ApartBut(h: Heap, lo: nat, hi: nat) {
    forall j: nat {:trigger Apart(h, j)} :: lo <= j < hi || Apart(h, j)
  }

  lemma InsertApart(h: Heap, bp: nat, i: nat)
    requires Inv(h) && AllApart(h) && bp in h.live && InGap(h, bp, i)
    ensures ApartBut(Insert(h, bp, i), i, i + 2)
  {
    var g := Insert(h, bp, i);
    forall j: nat | !(i <= j < i + 2)
      ensures Apart(g, j)
    {
      assert Apart(h, if j < i then j else j - 1);
    }
  }

  lemma MergeApart(h: Heap, k: nat, lo: nat)
    requires Inv(h) && Touch(h, k) && MergeReady(h, k) && lo <= k && ApartBut(h, lo, k + 1)
    ensures ApartBut(Merge(h, k), lo, k)
  {
    var g := Merge(h, k);
    forall j: nat | !(lo <= j < k)
      ensures Apart(g, j)
    {
      assert Apart(h, if j < k then j else j + 1);
      assert j < k && k < |h.fl| ==> Before(h, j, k);
      assert k < j && j + 1 < |h.fl| ==> Before(h, k, j + 1);
    }
  }

  lemma NoTouchApart(h: Heap, k: nat, lo: nat)
    requires Inv(h) && !Touch(h, k) && lo <= k && ApartBut(h, lo, k + 1)
    ensures ApartBut(h, lo, k)
  {
    assert k + 1 < |h.fl| ==> Before(h, k, k + 1);
    assert Apart(h, k);
  }

  lemma ReadyToMerge(h: Heap, k: nat)
    requires Inv(h)
    ensures Touch(h, k) ==> MergeReady(h, k)
  {
    assert k + 1 < |h.fl| ==> LinkOk(h, k + 1);
  }

  lemma FreedUpKeeps(h: Heap, bp: nat, i: nat)
    requires Inv(h) && AllApart(h) && bp in h.live && InGap(h, bp, i)
    ensures var g := FreedUp(h, bp, i);
            && Inv(g) && ApartBut(g, i, i + 1) && g.live == h.live - {bp} && g.owner.Keys == h.owner.Keys
            && i + 1 < |g.fl| && g.fl[i] == h.fl[i] && g.fl[i + 1] == bp && bp in g.size && bp in h.size
            && g.size[bp] >= h.size[bp]
            && g.fl[i] in g.size && g.fl[i] in h.size && g.size[g.fl[i]] == h.size[g.fl[i]] && bp in g.ptr
  {
    InsertKeeps(h, bp, i);
    InsertApart(h, bp, i);
    assert LiveOk(h, bp) && LinkOk(h, i);
    var g := Insert(h, bp, i);
    ReadyToMerge(g, i + 1);
    if Touch(g, i + 1) {
      MergeKeeps(g, i + 1);
      MergeApart(g, i + 1, i);
    } else {
      NoTouchApart(g, i + 1, i);
    }
  }

  lemma FreedKeeps(h: Heap, bp: nat, i: nat)
    requires Inv(h) && AllApart(h) && bp in h.live && InGap(h, bp, i)
    ensures var g := Freed(h, bp, i);
            && Inv(g) && AllApart(g) && g.live == h.live - {bp} && g.owner.Keys == h.owner.Keys && g.base == h.base
            && g.brk == h.brk
            && i < |g.fl| && g.fl[i] == h.fl[i] && bp in h.size
            && var at := if Touch(FreedUp(h, bp, i), i) then i else i + 1;
               at < |g.fl| && g.fl[at] in g.size && g.size[g.fl[at]] >= h.size[bp]
  {
    FreedUpKeeps(h, bp, i);
    var g := FreedUp(h, bp, i);
    ReadyToMerge(g, i);
    if Touch(g, i) {
      MergeKeeps(g, i);
      MergeApart(g, i, i);
    } else {
      NoTouchApart(g, i, i);
    }
    var f := Freed(h, bp, i);
    forall j: nat {:trigger Apart(f, j)}
      ensures Apart(f, j)
    {
      assert i <= j < i || Apart(f, j);
    }
  }

  /** What free reads. */
  lemma FreedFits(h: Heap, bp: nat, i: nat)
    requires Inv(h) && bp in h.live && InGap(h, bp, i)
    ensures h.fl[i] in h.ptr && h.fl[i] in h.size && h.ptr[h.fl[i]] == Next(h, i) && bp in h.size
    ensures h.size[bp] == h.live[bp] && bp != h.fl[i]
    ensures i + 1 < |h.fl| ==>
              h.fl[i + 1] in h.ptr && h.fl[i + 1] in h.size && bp < h.fl[i + 1] && h.fl[i] < h.fl[i + 1]
    ensures i + 1 == |h.fl| ==> bp + h.size[bp] > h.ptr[h.fl[i]]
    ensures bp !in h.fl && h.live[bp] > 0
  {
    assert LiveOk(h, bp) && LinkOk(h, i);
    assert i + 1 < |h.fl| ==> LinkOk(h, i + 1) && Before(h, i, i + 1);
  }

  function AtLeast(nu: nat): nat {
    if nu < 4096 then 4096 else nu
  }

  lemma ExtendApart(h: Heap, a: nat, n: nat)
    requires Inv(h) && AllApart(h) && h.brk <= a && n > 0
    ensures AllApart(Extend(h, a, n))
  {
    BlocksBelow(h, a);
    var g := Extend(h, a, n);
    forall j: nat {:trigger Apart(g, j)}
      ensures Apart(g, j)
    {
      assert Apart(h, j);
      assert j < |h.fl| ==> h.fl[j] in h.fl;
    }
  }

  lemma TakeAllApart(h: Heap, m: nat)
    requires Inv(h) && AllApart(h) && 1 <= m < |h.fl| && LinkOk(h, m)
    ensures AllApart(TakeAll(h, m))
  {
    var g := TakeAll(h, m);
    forall j: nat {:trigger Apart(g, j)}
      ensures Apart(g, j)
    {
      assert Apart(h, if j < m then j else j + 1);
      assert m + 1 < |h.fl| ==> Before(h, m, m + 1);
    }
  }

  lemma TakeTailApart(h: Heap, m: nat, n: nat)
    requires Inv(h) && AllApart(h) && m < |h.fl| && LinkOk(h, m) && 0 < n < h.size[h.fl[m]]
    ensures AllApart(TakeTail(h, m, n))
  {
    TailIsNew(h, m, n);
    var g := TakeTail(h, m, n);
    forall j: nat {:trigger Apart(g, j)}
      ensures Apart(g, j)
    {
      assert Apart(h, j);
      assert j < |h.fl| ==> h.fl[j] in h.fl;
    }
  }

  /** What malloc takes comes out of a free block. */
  lemma CarvedFits(h: Heap, m: nat, n: nat)
    requires Inv(h) && 1 <= m < |h.fl| && h.fl[m] in h.size && 0 < n <= h.size[h.fl[m]]
    ensures LinkOk(h, m) && h.base < h.fl[m] && h.fl[m] !in h.live && h.base <= h.fl[m - 1]
    ensures var q := h.fl[m] + h.size[h.fl[m]] - n;
            q !in h.live && forall u :: q <= u < q + n ==> u in h.owner && h.owner[u] in h.fl
  {
    assert LinkOk(h, m) && Before(h, 0, m);
    assert m - 1 > 0 ==> Before(h, 0, m - 1);
    var p := h.fl[m];
    var q := p + h.size[p] - n;
    assert p in h.live ==> LiveOk(h, p);
    forall u | q <= u < q + n
      ensures u in h.owner && h.owner[u] == p
    {
      assert Owns(h, p, u);
    }
    assert q in h.live ==> LiveOk(h, q);
    assert Owns(h, q, q);
  }

  // ---------- the search of malloc ----------

  /** The units of a block for nbytes bytes, its header included. */
  function UnitsFor(nbytes: nat): (n: nat)
    ensures n > 0 && (n - 2) * UNIT < nbytes <= (n - 1) * UNIT
  {
    (nbytes + UNIT - 1) / UNIT + 1
  }

  function Succ(m: nat, n: nat): nat {
    if m + 1 < n then m + 1 else 0
  }

  function Left(f: nat, k: nat, n: nat): int {
    if k <= f then f - k else f + n - k
  }

  /** Index j lies after f and before k, going round. */
  predicate Between(f: nat, k: nat, j: nat) {
    if f < k then f < j < k else f < j || j < k
  }

  ghost predicate Small(h: Heap, j: nat, n: nat) {
    j < |h.fl| ==> h.fl[j] in h.size && h.size[h.fl[j]] < n
  }

  ghost predicate Passed(h: Heap, f: nat, k: nat, n: nat) {
    forall j: nat {:trigger Small(h, j, n)} :: j < |h.fl| && Between(f, k, j) ==> Small(h, j, n)
  }

  /** Some free block has n units. */
  ghost predicate HasBlock(h: Heap, n: nat) {
    h.fl != [] && !TooSmall(h, n)
  }

  lemma NewList(h: Heap, g: Heap, n: nat)
    requires n > 0 && (h.fl != [] ==> g == h)
    requires h.fl == [] ==> |g.fl| == 1 && g.fl[0] in g.size && g.size[g.fl[0]] == 0
    ensures HasBlock(h, n) <==> !TooSmall(g, n)
  {
    if h.fl == [] {
      assert Small(g, 0, n);
    }
  }

  ghost predicate TooSmall(h: Heap, n: nat) {
    forall j: nat {:trigger Small(h, j, n)} :: Small(h, j, n)
  }

  lemma PassOne(h: Heap, f: nat, k: nat, n: nat)
    requires Inv(h) && f < |h.fl| && k < |h.fl| && k != f && Passed(h, f, k, n) && Small(h, k, n)
    ensures Passed(h, f, Succ(k, |h.fl|), n) && Left(f, Succ(k, |h.fl|), |h.fl|) < Left(f, k, |h.fl|)
  {
  }

  lemma WholeRound(h: Heap, f: nat, k: nat, n: nat)
    requires Inv(h) && f < |h.fl| && k < |h.fl| && h.fl[k] == h.fl[f] && Passed(h, f, k, n) && Small(h, k, n)
    ensures k == f && TooSmall(h, n)
  {
    assert f < k ==> Before(h, f, k);
    assert k < f ==> Before(h, k, f);
    forall j: nat
      ensures Small(h, j, n)
    {
      assert j < |h.fl| && Between(f, k, j) ==> Small(h, j, n);
    }
  }
}
