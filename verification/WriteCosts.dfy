/** Which blocks a write logs. */
module WriteCosts {
  import opened DiskBytes
  import opened FileBlocks

  /** The files, the uses of the blocks, and the blocks logged so far. */
  datatype Snap = Snap(disk: Disk, ino: map<nat, Inode>, use: map<nat, Use>, logged: set<nat>)

  ghost predicate HasFile(s: Snap, i: nat) {
    i in s.ino && |s.ino[i].addrs| == NDIRECT + 1
  }

  ghost function At(s: Snap, i: nat, k: nat): nat
    requires HasFile(s, i) && k < MAXFILE
  {
    Slot(s.disk, s.ino[i], k)
  }

  ghost function TableOf(s: Snap, i: nat): nat
    requires HasFile(s, i)
  {
    s.ino[i].addrs[NDIRECT]
  }

  /** The blocks a up to b of file i. */
  ghost function Blocks(t: Snap, i: nat, a: nat, b: nat): set<nat>
    requires HasFile(t, i)
  {
    set k | a <= k < b && k < MAXFILE :: At(t, i, k)
  }

  /** Those of them that were missing in s. */
  ghost function NewBlocks(s: Snap, t: Snap, i: nat, a: nat, b: nat): set<nat>
    requires HasFile(s, i) && HasFile(t, i)
  {
    set k | a <= k < b && k < MAXFILE && At(s, i, k) == 0 && At(t, i, k) != 0 :: At(t, i, k)
  }

  ghost function NewTable(s: Snap, t: Snap, i: nat): set<nat>
    requires HasFile(s, i) && HasFile(t, i)
  {
    {TableOf(t, i)} - {TableOf(s, i)} - {0}
  }

  /** A block number has been entered in the indirect block. */
  ghost predicate Enters(s: Snap, t: Snap, i: nat, a: nat, b: nat)
    requires HasFile(s, i) && HasFile(t, i)
  {
    exists k: nat {:trigger At(t, i, k)} :: a <= k < b && NDIRECT <= k < MAXFILE && At(s, i, k) == 0 && At(t, i, k) != 0
  }

  /** A block is missing whose number goes into the indirect block. */
  ghost predicate WantsEntry(s: Snap, i: nat, a: nat, b: nat)
    requires HasFile(s, i)
  {
    exists k: nat {:trigger At(s, i, k)} :: a <= k < b && NDIRECT <= k < MAXFILE && At(s, i, k) == 0
  }

  ghost function Entry(s: Snap, t: Snap, i: nat, a: nat, b: nat): set<nat>
    requires HasFile(s, i) && HasFile(t, i)
  {
    if Enters(s, t, i, a, b) then {TableOf(t, i)} else {}
  }

  /** Slots and the indirect block of file i are kept or filled in; outside [a, b) nothing changes. */
  ghost predicate Fills(s: Snap, t: Snap, i: nat, a: nat, b: nat) {
    && HasFile(s, i) && HasFile(t, i) && b <= MAXFILE
    && (forall k: nat {:trigger At(t, i, k)} :: k < MAXFILE && (k < a || b <= k || At(s, i, k) != 0) ==>
           At(t, i, k) == At(s, i, k))
    && (TableOf(s, i) != 0 ==> TableOf(t, i) == TableOf(s, i))
  }

  /** Always true. PieceCosts, Costs and Whole are looked into only by proofs that say Opened(0); others pass them
      on. */
  predicate Opened(d: int) {
    true
  }

  /** One round of writei at block n, from t to u: what bmap allocates, and the block if it is written. */
  ghost predicate PieceCosts(l: Layout, t: Snap, u: Snap, i: nat, n: nat, addr: nat, ok: bool) {
    forall d: int {:trigger Opened(d)} :: Opened(d) ==> PieceCost(l, t, u, i, n, addr, ok)
  }

  ghost predicate PieceCost(l: Layout, t: Snap, u: Snap, i: nat, n: nat, addr: nat, ok: bool) {
    && n < MAXFILE && Fills(t, u, i, n, n + 1) && At(u, i, n) == addr && (ok ==> addr != 0)
    && OnlyLogged(t.disk, u.disk, u.logged)
    && (NewTable(t, u, i) != {} ==> n >= NDIRECT && At(t, i, n) == 0)
    && Allots(l, t.use, u.use, t.logged, u.logged, NewBlocks(t, u, i, n, n + 1) + NewTable(t, u, i),
              Entry(t, u, i, n, n + 1) + if ok then {addr} else {})
  }

  /** Rounds at blocks a up to b, of which those up to d are written. */
  ghost predicate Costs(l: Layout, s: Snap, t: Snap, i: nat, a: nat, b: nat, d: nat) {
    forall e: int {:trigger Opened(e)} :: Opened(e) ==> Cost(l, s, t, i, a, b, d)
  }

  ghost predicate Cost(l: Layout, s: Snap, t: Snap, i: nat, a: nat, b: nat, d: nat) {
    && a <= d <= b <= d + 1 && Fills(s, t, i, a, b) && OnlyLogged(s.disk, t.disk, t.logged)
    && (forall k: nat {:trigger At(t, i, k)} :: a <= k < d ==> At(t, i, k) != 0)
    && (NewTable(s, t, i) != {} ==> WantsEntry(s, i, a, b) && (d == b ==> Enters(s, t, i, a, b)))
    && Allots(l, s.use, t.use, s.logged, t.logged, NewBlocks(s, t, i, a, b) + NewTable(s, t, i),
              Blocks(t, i, a, d) + Entry(s, t, i, a, b))
  }

  /** Rounds at blocks a up to b, the last of which has come to nothing if not ok. */
  ghost predicate Rounds(l: Layout, s: Snap, t: Snap, i: nat, a: nat, b: nat, ok: bool) {
    if ok then Costs(l, s, t, i, a, b, b) else b > 0 && Costs(l, s, t, i, a, b, b - 1)
  }

  lemma CostsNone(l: Layout, s: Snap, i: nat, a: nat)
    requires HasFile(s, i) && a <= MAXFILE
    ensures Costs(l, s, s, i, a, a, a)
  {
    assert Opened(0);
    AllotsNone(l, s.use, s.logged);
    assert NewBlocks(s, s, i, a, a) + NewTable(s, s, i) == {};
    assert Blocks(s, i, a, a) + Entry(s, s, i, a, a) == {};
  }

  lemma BlocksMore(s: Snap, t: Snap, u: Snap, i: nat, a: nat, b: nat)
    requires a <= b < MAXFILE && Fills(s, t, i, a, b) && Fills(t, u, i, b, b + 1)
    ensures NewBlocks(s, u, i, a, b + 1) == NewBlocks(s, t, i, a, b) + NewBlocks(t, u, i, b, b + 1)
    ensures NewTable(s, u, i) == NewTable(s, t, i) + NewTable(t, u, i)
  {
    assert forall k: nat {:trigger At(u, i, k)} :: k < b ==> At(u, i, k) == At(t, i, k);
    assert At(t, i, b) == At(s, i, b);
    var all := NewBlocks(s, u, i, a, b + 1);
    forall x | x in all
      ensures x in NewBlocks(s, t, i, a, b) + NewBlocks(t, u, i, b, b + 1)
    {
      var k: nat :| a <= k < b + 1 && At(s, i, k) == 0 && At(u, i, k) != 0 && x == At(u, i, k);
      assert k < b ==> At(t, i, k) == x;
    }
    forall x | x in NewBlocks(s, t, i, a, b)
      ensures x in NewBlocks(s, u, i, a, b + 1)
    {
      var k: nat :| a <= k < b && At(s, i, k) == 0 && At(t, i, k) != 0 && x == At(t, i, k);
      assert At(u, i, k) == x;
    }
  }

  lemma EntryMore(s: Snap, t: Snap, u: Snap, i: nat, a: nat, b: nat)
    requires a <= b < MAXFILE && Fills(s, t, i, a, b) && Fills(t, u, i, b, b + 1)
    ensures Enters(s, u, i, a, b + 1) <==> Enters(s, t, i, a, b) || Enters(t, u, i, b, b + 1)
    ensures Entry(s, u, i, a, b + 1) == Entry(s, t, i, a, b) + Entry(t, u, i, b, b + 1)
  {
    assert forall k: nat {:trigger At(u, i, k)} :: k < b ==> At(u, i, k) == At(t, i, k);
    assert At(t, i, b) == At(s, i, b);
    if Enters(s, t, i, a, b) {
      var k: nat :| a <= k < b && NDIRECT <= k < MAXFILE && At(s, i, k) == 0 && At(t, i, k) != 0;
      assert At(u, i, k) == At(t, i, k);
      assert TableOf(t, i) != 0;
    }
    if Enters(s, u, i, a, b + 1) {
      var k: nat :| a <= k < b + 1 && NDIRECT <= k < MAXFILE && At(s, i, k) == 0 && At(u, i, k) != 0;
      assert k < b ==> At(t, i, k) == At(u, i, k);
    }
    if Enters(t, u, i, b, b + 1) {
      assert At(u, i, b) != 0;
    }
  }

  lemma WrittenMoreBlocks(t: Snap, u: Snap, i: nat, a: nat, b: nat)
    requires a <= b < MAXFILE && Fills(t, u, i, b, b + 1)
    ensures Blocks(u, i, a, b) == Blocks(t, i, a, b)
    ensures Blocks(u, i, a, b + 1) == Blocks(t, i, a, b) + {At(u, i, b)}
  {
    assert forall k: nat {:trigger At(u, i, k)} :: k < b ==> At(u, i, k) == At(t, i, k);
    forall x | x in Blocks(t, i, a, b)
      ensures x in Blocks(u, i, a, b)
    {
      var k: nat :| a <= k < b && x == At(t, i, k);
      assert At(u, i, k) == x;
    }
    forall x | x in Blocks(u, i, a, b + 1)
      ensures x in Blocks(t, i, a, b) + {At(u, i, b)}
    {
      var k: nat :| a <= k < b + 1 && x == At(u, i, k);
      assert k < b ==> At(t, i, k) == x;
    }
  }

  lemma CostsMore(l: Layout, s: Snap, t: Snap, u: Snap, i: nat, a: nat, b: nat, addr: nat, ok: bool, b': nat)
    requires Costs(l, s, t, i, a, b, b) && PieceCosts(l, t, u, i, b, addr, ok) && b' == b + 1
    ensures Rounds(l, s, u, i, a, b', ok)
  {
    assert Opened(0);
    EntryMore(s, t, u, i, a, b);
    BlocksMore(s, t, u, i, a, b);
    StillWritten(s, t, u, i, a, b, addr, ok);
    AllotsMore(l, s, t, u, i, a, b, addr, ok);
    OnlyLoggedTwice(s.disk, t.disk, u.disk, t.logged, u.logged);
    EntryWanted(l, s, t, u, i, a, b, addr, ok);
  }

  lemma EntryWanted(l: Layout, s: Snap, t: Snap, u: Snap, i: nat, a: nat, b: nat, addr: nat, ok: bool)
    requires Costs(l, s, t, i, a, b, b) && PieceCosts(l, t, u, i, b, addr, ok) && HasFile(s, i) && HasFile(u, i)
    ensures NewTable(s, u, i) != {} ==> WantsEntry(s, i, a, b + 1)
  {
    assert Opened(0);
    BlocksMore(s, t, u, i, a, b);
    assert At(t, i, b) == At(s, i, b);
  }

  lemma AllotsMore(l: Layout, s: Snap, t: Snap, u: Snap, i: nat, a: nat, b: nat, addr: nat, ok: bool)
    requires Costs(l, s, t, i, a, b, b) && PieceCosts(l, t, u, i, b, addr, ok) && HasFile(s, i) && HasFile(u, i)
    ensures Allots(l, s.use, u.use, s.logged, u.logged, NewBlocks(s, u, i, a, b + 1) + NewTable(s, u, i),
                   Blocks(u, i, a, if ok then b + 1 else b) + Entry(s, u, i, a, b + 1))
  {
    assert Opened(0);
    var took, more := NewBlocks(s, t, i, a, b) + NewTable(s, t, i), NewBlocks(t, u, i, b, b + 1) + NewTable(t, u, i);
    var also, later := Blocks(t, i, a, b) + Entry(s, t, i, a, b), Entry(t, u, i, b, b + 1) + if ok then {addr} else {};
    assert took + more == NewBlocks(s, u, i, a, b + 1) + NewTable(s, u, i) by {
      BlocksMore(s, t, u, i, a, b);
      Shuffle(NewBlocks(s, t, i, a, b), NewTable(s, t, i), NewBlocks(t, u, i, b, b + 1), NewTable(t, u, i));
    }
    assert also + later == Blocks(u, i, a, if ok then b + 1 else b) + Entry(s, u, i, a, b + 1) by {
      EntryMore(s, t, u, i, a, b);
      WrittenMoreBlocks(t, u, i, a, b);
      Shuffle(Blocks(t, i, a, b), Entry(s, t, i, a, b), if ok then {addr} else {}, Entry(t, u, i, b, b + 1));
    }
    AllotsTwice(l, s.use, t.use, u.use, s.logged, t.logged, u.logged, took, also, more, later);
  }

  lemma Shuffle(a: set<nat>, b: set<nat>, c: set<nat>, d: set<nat>)
    ensures (a + b) + (c + d) == (a + c) + (b + d) == (a + b) + (d + c)
  {
  }

  lemma StillWritten(s: Snap, t: Snap, u: Snap, i: nat, a: nat, b: nat, addr: nat, ok: bool)
    requires a <= b < MAXFILE && Fills(s, t, i, a, b) && Fills(t, u, i, b, b + 1)
    requires forall k: nat {:trigger At(t, i, k)} :: a <= k < b ==> At(t, i, k) != 0
    requires At(u, i, b) == addr && (ok ==> addr != 0)
    ensures Fills(s, u, i, a, b + 1)
    ensures forall k: nat {:trigger At(u, i, k)} :: a <= k < (if ok then b + 1 else b) ==> At(u, i, k) != 0
  {
    forall k: nat | k < MAXFILE && (k < a || b + 1 <= k || At(s, i, k) != 0)
      ensures At(u, i, k) == At(s, i, k)
    {
      assert At(t, i, k) == At(s, i, k);
    }
    forall k: nat | a <= k < b
      ensures At(u, i, k) != 0
    {
      assert At(t, i, k) != 0;
    }
  }

  // ---------- how many ----------

  lemma Subset(a: set<nat>, b: set<nat>)
    requires a <= b
    ensures |a| <= |b|
  {
    assert b == a + (b - a);
  }

  lemma Sizes(a: set<nat>, b: set<nat>)
    ensures |a + b| <= |a| + |b|
    ensures a !! b ==> |a + b| == |a| + |b|
  {
    assert a + b == a + (b - a);
    Subset(b - a, b);
    assert a !! b ==> b - a == b;
  }

  lemma {:induction false} BitsCount(l: Layout, s: set<nat>)
    ensures |Bits(l, s)| <= |s|
    decreases |s|
  {
    if s != {} {
      var b :| b in s;
      BitsCount(l, s - {b});
      assert Bits(l, s) == Bits(l, s - {b}) + {BBlock(l, b)};
      Sizes(Bits(l, s - {b}), {BBlock(l, b)});
    }
  }

  lemma {:induction false} BlocksCount(t: Snap, i: nat, a: nat, b: nat)
    requires HasFile(t, i) && a <= b <= MAXFILE
    ensures |Blocks(t, i, a, b)| <= b - a
    decreases b - a
  {
    if a < b {
      BlocksCount(t, i, a, b - 1);
      assert Blocks(t, i, a, b) == Blocks(t, i, a, b - 1) + {At(t, i, b - 1)};
      Sizes(Blocks(t, i, a, b - 1), {At(t, i, b - 1)});
    } else {
      assert Blocks(t, i, a, b) == {};
    }
  }

  ghost predicate Ok(l: Layout, s: Snap) {
    Inv(l, s.disk, s.ino, s.use)
  }

  lemma PlaceOf(l: Layout, t: Snap, i: nat, k: nat)
    requires Ok(l, t) && HasFile(t, i) && k < MAXFILE && At(t, i, k) != 0
    ensures At(t, i, k) in t.use && t.use[At(t, i, k)] == Piece(i, k) && l.nmeta <= At(t, i, k) < l.size
  {
    assert FileOk(t.disk, t.use, i, t.ino[i]) && PieceOk(t.disk, t.use, i, t.ino[i], k);
    assert BlockOk(l, t.disk, t.use, At(t, i, k));
  }

  lemma TablePlace(l: Layout, t: Snap, i: nat)
    requires Ok(l, t) && HasFile(t, i) && TableOf(t, i) != 0
    ensures TableOf(t, i) in t.use && t.use[TableOf(t, i)] == Table(i) && l.nmeta <= TableOf(t, i) < l.size
  {
    assert FileOk(t.disk, t.use, i, t.ino[i]);
    assert BlockOk(l, t.disk, t.use, TableOf(t, i));
  }

  lemma LastDiffers(l: Layout, t: Snap, i: nat, a: nat, b: nat)
    requires Ok(l, t) && HasFile(t, i) && a <= b < MAXFILE && At(t, i, b) != 0
    ensures At(t, i, b) !in Blocks(t, i, a, b)
  {
    PlaceOf(l, t, i, b);
    if At(t, i, b) in Blocks(t, i, a, b) {
      var k: nat :| a <= k < b && At(t, i, b) == At(t, i, k);
      PlaceOf(l, t, i, k);
    }
  }

  lemma {:induction false} BlocksDiffer(l: Layout, t: Snap, i: nat, a: nat, b: nat)
    requires Ok(l, t) && HasFile(t, i) && a <= b <= MAXFILE
    requires forall k: nat {:trigger At(t, i, k)} :: a <= k < b ==> At(t, i, k) != 0
    ensures |Blocks(t, i, a, b)| == b - a
    decreases b - a
  {
    if a < b {
      BlocksDiffer(l, t, i, a, b - 1);
      LastDiffers(l, t, i, a, b - 1);
      assert Blocks(t, i, a, b) == Blocks(t, i, a, b - 1) + {At(t, i, b - 1)};
    } else {
      assert Blocks(t, i, a, b) == {};
    }
  }

  lemma NewBlocksCount(s: Snap, t: Snap, i: nat, a: nat, b: nat)
    requires HasFile(s, i) && HasFile(t, i) && a <= b <= MAXFILE
    ensures |NewBlocks(s, t, i, a, b)| <= b - a
    ensures a < b && At(s, i, a) != 0 ==> |NewBlocks(s, t, i, a, b)| <= b - a - 1
  {
    BlocksCount(t, i, a, b);
    Subset(NewBlocks(s, t, i, a, b), Blocks(t, i, a, b));
    if a < b && At(s, i, a) != 0 {
      BlocksCount(t, i, a + 1, b);
      Subset(NewBlocks(s, t, i, a, b), Blocks(t, i, a + 1, b));
    }
  }

  /** What is allocated: blocks a up to b that were missing, and the indirect block. */
  ghost function Gained(s: Snap, t: Snap, i: nat, a: nat, b: nat): set<nat>
    requires HasFile(s, i) && HasFile(t, i)
  {
    NewBlocks(s, t, i, a, b) + NewTable(s, t, i)
  }

  lemma GainedCount(s: Snap, t: Snap, i: nat, a: nat, b: nat)
    requires HasFile(s, i) && HasFile(t, i) && a <= b <= MAXFILE
    ensures |Gained(s, t, i, a, b)| <= b - a + 1
    ensures a < b && At(s, i, a) != 0 ==> |Gained(s, t, i, a, b)| <= b - a
  {
    NewBlocksCount(s, t, i, a, b);
    Sizes(NewBlocks(s, t, i, a, b), NewTable(s, t, i));
    Subset(NewTable(s, t, i), {TableOf(t, i)});
  }

  lemma LoggedWithin(l: Layout, s: Snap, t: Snap, i: nat, a: nat, b: nat, d: nat)
    requires Costs(l, s, t, i, a, b, d) && HasFile(s, i) && HasFile(t, i)
    ensures t.logged <= s.logged + (Blocks(t, i, a, b) + {TableOf(t, i)}) + Bits(l, Gained(s, t, i, a, b))
  {
    assert Opened(0);
    assert NewBlocks(s, t, i, a, b) <= Blocks(t, i, a, b) && Blocks(t, i, a, d) <= Blocks(t, i, a, b);
  }

  /** The bound: each block, its bitmap block unless it was there, the indirect block, its bitmap block, and the block
      of the inode. */
  lemma RoundsBound(l: Layout, s: Snap, t: Snap, i: nat, a: nat, b: nat, ok: bool, iblock: nat)
    requires Rounds(l, s, t, i, a, b, ok)
    ensures a <= b && HasFile(s, i) && (a < b ==> a < MAXFILE)
    ensures |t.logged + {iblock} - s.logged| <= 2 * (b - a) + 3 - (if a < b && At(s, i, a) != 0 then 1 else 0)
  {
    assert Opened(0);
    CostBound(l, s, t, i, a, b, if ok then b else b - 1, iblock);
  }

  /** A write leaves no block held that was not, and logs what it changes, whether or not it is cut short. */
  lemma HeldAfter(l: Layout, s: Snap, t: Snap, i: nat, a: nat, b: nat, ok: bool)
    requires Rounds(l, s, t, i, a, b, ok)
    ensures SameHeld(s.use, t.use) && OnlyLogged(s.disk, t.disk, t.logged)
  {
    assert Opened(0);
  }

  /** What it logs are blocks from the bitmap on. */
  lemma LoggedAbove(l: Layout, s: Snap, t: Snap, i: nat, a: nat, b: nat, ok: bool, x: nat)
    requires Rounds(l, s, t, i, a, b, ok) && Ok(l, t) && x in t.logged && x !in s.logged
    ensures l.bmapstart <= x < l.size
  {
    CostAbove(l, s, t, i, a, b, if ok then b else b - 1, x);
  }

  lemma CostAbove(l: Layout, s: Snap, t: Snap, i: nat, a: nat, b: nat, d: nat, x: nat)
    requires Costs(l, s, t, i, a, b, d) && Ok(l, t) && x in t.logged && x !in s.logged
    ensures l.bmapstart <= x < l.size
  {
    assert Opened(0);
    assert LayoutOk(l);
    var took := NewBlocks(s, t, i, a, b) + NewTable(s, t, i);
    if x in took || x in Blocks(t, i, a, d) || x in Entry(s, t, i, a, b) {
      DataBlock(l, s, t, i, a, b, d, x);
    } else {
      var y :| y in took && x == BBlock(l, y);
      DataBlock(l, s, t, i, a, b, d, y);
      BBlockIsMeta(l, y);
    }
  }

  lemma DataBlock(l: Layout, s: Snap, t: Snap, i: nat, a: nat, b: nat, d: nat, x: nat)
    requires HasFile(s, i) && HasFile(t, i) && Ok(l, t) && d <= b <= MAXFILE
    requires forall k: nat {:trigger At(t, i, k)} :: a <= k < d ==> At(t, i, k) != 0
    requires x in NewBlocks(s, t, i, a, b) + NewTable(s, t, i) + Blocks(t, i, a, d) + Entry(s, t, i, a, b)
    ensures l.nmeta <= x < l.size
  {
    if x in NewBlocks(s, t, i, a, b) {
      var k: nat :| a <= k < b && k < MAXFILE && At(s, i, k) == 0 && At(t, i, k) != 0 && x == At(t, i, k);
      PlaceOf(l, t, i, k);
    } else if x in Blocks(t, i, a, d) {
      var k: nat :| a <= k < d && k < MAXFILE && x == At(t, i, k);
      PlaceOf(l, t, i, k);
    } else {
      if Enters(s, t, i, a, b) {
        var k: nat :| a <= k < b && NDIRECT <= k < MAXFILE && At(s, i, k) == 0 && At(t, i, k) != 0;
      }
      TablePlace(l, t, i);
    }
  }

  lemma CostBound(l: Layout, s: Snap, t: Snap, i: nat, a: nat, b: nat, d: nat, iblock: nat)
    requires Costs(l, s, t, i, a, b, d) && HasFile(s, i) && (a < b ==> a < MAXFILE)
    ensures |t.logged + {iblock} - s.logged| <= 2 * (b - a) + 3 - (if a < b && At(s, i, a) != 0 then 1 else 0)
  {
    assert Opened(0);
    var g := Gained(s, t, i, a, b);
    var all := Blocks(t, i, a, b) + {TableOf(t, i)};
    LoggedWithin(l, s, t, i, a, b, d);
    Subset(t.logged + {iblock} - s.logged, all + Bits(l, g) + {iblock});
    BlocksCount(t, i, a, b);
    Sizes(Blocks(t, i, a, b), {TableOf(t, i)});
    GainedCount(s, t, i, a, b);
    BitsCount(l, g);
    Sizes(all, Bits(l, g));
    Sizes(all + Bits(l, g), {iblock});
  }

  /** What a write that is not cut short logs, and no more: its blocks, the indirect block if a number is entered in
      it, the bitmap blocks of what it allocates, and the block of the inode. */
  ghost predicate Whole(l: Layout, s: Snap, t: Snap, i: nat, a: nat, b: nat) {
    forall e: int {:trigger Opened(e)} :: Opened(e) ==> AllCost(l, s, t, i, a, b)
  }

  ghost predicate AllCost(l: Layout, s: Snap, t: Snap, i: nat, a: nat, b: nat) {
    && a <= b && Fills(s, t, i, a, b) && (forall k: nat {:trigger At(t, i, k)} :: a <= k < b ==> At(t, i, k) != 0)
    && (NewTable(s, t, i) != {} ==> Enters(s, t, i, a, b))
    && Allots(l, s.use, t.use, s.logged, t.logged, Gained(s, t, i, a, b),
              Blocks(t, i, a, b) + Entry(s, t, i, a, b) + {IBlock(l, i)})
  }

  /** What else is true of such a write. */
  ghost predicate AllThere(s: Snap, t: Snap, i: nat, a: nat, b: nat) {
    && a <= b && Fills(s, t, i, a, b) && (forall k: nat {:trigger At(t, i, k)} :: a <= k < b ==> At(t, i, k) != 0)
    && (NewTable(s, t, i) != {} ==> Enters(s, t, i, a, b))
    && Gained(s, t, i, a, b) <= t.use.Keys && Lowest(s.use, Gained(s, t, i, a, b))
  }

  lemma WholeIsThere(l: Layout, s: Snap, t: Snap, i: nat, a: nat, b: nat)
    requires Whole(l, s, t, i, a, b)
    ensures AllThere(s, t, i, a, b)
  {
    assert Opened(0);
  }

  lemma WholeLogs(l: Layout, s: Snap, t: Snap, i: nat, a: nat, b: nat)
    requires Whole(l, s, t, i, a, b) && HasFile(s, i) && HasFile(t, i)
    ensures t.logged ==
              s.logged + Blocks(t, i, a, b) + Entry(s, t, i, a, b) + Bits(l, Gained(s, t, i, a, b)) + {IBlock(l, i)}
  {
    assert Opened(0);
    assert NewBlocks(s, t, i, a, b) <= Blocks(t, i, a, b);
    assert NewTable(s, t, i) <= Entry(s, t, i, a, b);
    Absorb(s.logged, NewBlocks(s, t, i, a, b), NewTable(s, t, i), Bits(l, Gained(s, t, i, a, b)), Blocks(t, i, a, b),
           Entry(s, t, i, a, b), {IBlock(l, i)});
  }

  lemma Absorb(g: set<nat>, a: set<nat>, b: set<nat>, c: set<nat>, d: set<nat>, e: set<nat>, f: set<nat>)
    requires a <= d && b <= e
    ensures g + (a + b) + c + (d + e + f) == g + d + e + c + f
  {
  }

  /** The same slots and the same indirect block. */
  ghost predicate SamePlaces(t: Snap, t0: Snap, i: nat) {
    && HasFile(t, i) && HasFile(t0, i) && TableOf(t0, i) == TableOf(t, i)
    && forall k: nat {:trigger At(t, i, k)} {:trigger At(t0, i, k)} :: k < MAXFILE ==> At(t0, i, k) == At(t, i, k)
  }

  lemma SameSets(s: Snap, t: Snap, t0: Snap, i: nat, a: nat, b: nat)
    requires HasFile(s, i) && SamePlaces(t, t0, i)
    ensures NewBlocks(s, t0, i, a, b) == NewBlocks(s, t, i, a, b) && NewTable(s, t0, i) == NewTable(s, t, i)
    ensures Blocks(t0, i, a, b) == Blocks(t, i, a, b) && Entry(s, t0, i, a, b) == Entry(s, t, i, a, b)
    ensures Enters(s, t0, i, a, b) == Enters(s, t, i, a, b)
  {
  }

  lemma SameFile(s: Snap, t: Snap, t0: Snap, i: nat, a: nat, b: nat)
    requires HasFile(s, i) && HasFile(t, i) && HasFile(t0, i) && t0.disk == t.disk && t0.ino[i].addrs == t.ino[i].addrs
    ensures SamePlaces(t, t0, i)
    ensures NewBlocks(s, t0, i, a, b) == NewBlocks(s, t, i, a, b) && NewTable(s, t0, i) == NewTable(s, t, i)
    ensures Blocks(t0, i, a, b) == Blocks(t, i, a, b) && Entry(s, t0, i, a, b) == Entry(s, t, i, a, b)
    ensures Enters(s, t0, i, a, b) == Enters(s, t, i, a, b)
  {
    assert forall k: nat {:trigger At(t, i, k)} {:trigger At(t0, i, k)} :: k < MAXFILE ==> At(t0, i, k) == At(t, i, k);
    SameSets(s, t, t0, i, a, b);
  }

  /** iupdate adds the block of the inode; the size of the file does not matter. */
  lemma IsWhole(l: Layout, s: Snap, t: Snap, u: Snap, i: nat, a: nat, b: nat)
    requires Costs(l, s, t, i, a, b, b) && i in t.ino
    requires i in u.ino && u.disk == t.disk && u.use == t.use && u.logged == t.logged + {IBlock(l, i)}
    requires u.ino[i].addrs == t.ino[i].addrs
    ensures Whole(l, s, u, i, a, b)
  {
    assert Opened(0);
    SameFile(s, t, u, i, a, b);
    StillFills(s, t, u, i, a, b);
    Grouped(s.logged, Gained(s, t, i, a, b), Bits(l, Gained(s, t, i, a, b)),
        Blocks(t, i, a, b) + Entry(s, t, i, a, b), {IBlock(l, i)});
  }

  lemma Grouped(a: set<nat>, b: set<nat>, c: set<nat>, d: set<nat>, e: set<nat>)
    ensures a + b + c + d + e == a + b + c + (d + e)
  {
  }

  lemma OneBlock(t: Snap, u: Snap, i: nat, n: nat, addr: nat)
    requires HasFile(t, i) && HasFile(u, i) && n < MAXFILE && At(u, i, n) == addr
    ensures Fresh(t.disk, t.ino[i], u.ino[i], n, addr) == NewBlocks(t, u, i, n, n + 1) + NewTable(t, u, i)
    ensures Entered(t.disk, t.ino[i], u.ino[i], n, addr) == Entry(t, u, i, n, n + 1) + {}
  {
    assert NewBlocks(t, u, i, n, n + 1) == if At(t, i, n) == 0 then {addr} - {0} else {};
    assert Enters(t, u, i, n, n + 1) <==> At(t, i, n) == 0 && addr != 0 && n >= NDIRECT;
  }

  lemma FromBMap(l: Layout, t: Snap, u: Snap, i: nat, n: nat, addr: nat)
    requires HasFile(t, i) && HasFile(u, i) && n < MAXFILE && At(u, i, n) == addr && Fills(t, u, i, n, n + 1)
    requires Allots(l, t.use, u.use, t.logged, u.logged, Fresh(t.disk, t.ino[i], u.ino[i], n, addr),
                    Entered(t.disk, t.ino[i], u.ino[i], n, addr))
    requires TableOf(u, i) != TableOf(t, i) ==> n >= NDIRECT && At(t, i, n) == 0
    requires OnlyLogged(t.disk, u.disk, u.logged)
    ensures PieceCosts(l, t, u, i, n, addr, false)
  {
    OneBlock(t, u, i, n, addr);
    assert PieceCost(l, t, u, i, n, addr, false);
  }

  /** Block addr, where block n of the file is, gets new contents. */
  lemma AndWritten(l: Layout, t: Snap, u: Snap, v: Snap, i: nat, n: nat, addr: nat)
    requires PieceCosts(l, t, u, i, n, addr, false) && addr != 0 && SamePlaces(u, v, i)
    requires HasFile(t, i) && n < MAXFILE
    requires v.use == u.use && v.logged == u.logged + {addr} && addr < |u.disk|
    requires |v.disk| == |u.disk| && v.disk == u.disk[addr := v.disk[addr]]
    ensures PieceCosts(l, t, v, i, n, addr, true)
  {
    assert Opened(0);
    OnlyLoggedTwice(t.disk, u.disk, v.disk, u.logged, v.logged);
    SameSets(t, u, v, i, n, n + 1);
    StillFills(t, u, v, i, n, n + 1);
    var took, entry := NewBlocks(t, u, i, n, n + 1) + NewTable(t, u, i), Entry(t, u, i, n, n + 1);
    AllotsAlso(l, t.use, u.use, t.logged, u.logged, took, entry, addr);
    assert NewBlocks(t, v, i, n, n + 1) + NewTable(t, v, i) == took && Entry(t, v, i, n, n + 1) == entry;
    assert At(v, i, n) == addr;
    assert PieceCost(l, t, v, i, n, addr, true);
  }

  lemma StillFills(s: Snap, t: Snap, t0: Snap, i: nat, a: nat, b: nat)
    requires Fills(s, t, i, a, b) && SamePlaces(t, t0, i)
    ensures Fills(s, t0, i, a, b)
  {
  }

  lemma AllotsAlso(l: Layout, use: map<nat, Use>, use': map<nat, Use>, g: set<nat>, g': set<nat>, took: set<nat>,
                   also: set<nat>, x: nat)
    requires Allots(l, use, use', g, g', took, also + {})
    ensures Allots(l, use, use', g, g' + {x}, took, also + {x})
  {
  }

  /** Exactly how many blocks a transaction logs for a write that is not cut short. */
  lemma ExactCount(l: Layout, s: Snap, t: Snap, i: nat, a: nat, b: nat)
    requires Whole(l, s, t, i, a, b) && s.logged == {} && Ok(l, t) && IBlock(l, i) < l.bmapstart
    requires HasFile(s, i) && HasFile(t, i)
    ensures |t.logged| == (b - a) + (if Enters(s, t, i, a, b) then 1 else 0) + |Bits(l, Gained(s, t, i, a, b))| + 1
  {
    WholeLogs(l, s, t, i, a, b);
    WholeIsThere(l, s, t, i, a, b);
    BlocksDiffer(l, t, i, a, b);
    ThreeKinds(l, s, t, i, a, b);
    FourSizes(t.logged, Blocks(t, i, a, b), Entry(s, t, i, a, b), Bits(l, Gained(s, t, i, a, b)), IBlock(l, i));
  }

  lemma FourSizes(all: set<nat>, a: set<nat>, b: set<nat>, c: set<nat>, x: nat)
    requires all == {} + a + b + c + {x} && a !! b && (a + b) !! c && x !in a + b + c
    ensures |all| == |a| + |b| + |c| + 1
  {
    Sizes(a, b);
    Sizes(a + b, c);
    Sizes(a + b + c, {x});
    assert all == a + b + c + {x};
  }

  /** Data blocks, the indirect block, bitmap blocks and the inode's block are different blocks. */
  lemma ThreeKinds(l: Layout, s: Snap, t: Snap, i: nat, a: nat, b: nat)
    requires Ok(l, t) && HasFile(s, i) && HasFile(t, i) && IBlock(l, i) < l.bmapstart && b <= MAXFILE
    requires forall k: nat {:trigger At(t, i, k)} :: a <= k < b ==> At(t, i, k) != 0
    requires Gained(s, t, i, a, b) <= t.use.Keys
    ensures Blocks(t, i, a, b) !! Entry(s, t, i, a, b)
    ensures Blocks(t, i, a, b) + Entry(s, t, i, a, b) !! Bits(l, Gained(s, t, i, a, b))
    ensures IBlock(l, i) !in Blocks(t, i, a, b) + Entry(s, t, i, a, b) + Bits(l, Gained(s, t, i, a, b))
  {
    forall x | x in Blocks(t, i, a, b)
      ensures x >= l.nmeta && x in t.use && t.use[x].Piece?
    {
      var k: nat :| a <= k < b && x == At(t, i, k);
      PlaceOf(l, t, i, k);
    }
    if Enters(s, t, i, a, b) {
      TablePlace(l, t, i);
    }
    forall x | x in Bits(l, Gained(s, t, i, a, b))
      ensures l.bmapstart <= x < l.nmeta
    {
      var y :| y in Gained(s, t, i, a, b) && x == BBlock(l, y);
      BBlockIsMeta(l, y);
    }
  }

  // ---------- ten blocks ----------

  /** f holds free blocks, and all that come before one of them. */
  ghost predicate Lowest(use: map<nat, Use>, f: set<nat>) {
    && (forall b {:trigger b in f} :: b in f ==> b in use && use[b] == Free)
    && (forall b, c {:trigger b in f, use[c]} :: b in f && c in use && c < b && use[c] == Free ==> c in f)
  }

  lemma LowestIsOne(use: map<nat, Use>, f: set<nat>, g: set<nat>)
    requires Lowest(use, f) && Lowest(use, g) && |f| == |g|
    ensures f == g
  {
    if x :| x in f && x !in g {
      assert forall y :: y in g ==> y in f by {
        forall y | y in g
          ensures y in f
        {
          assert use[y] == Free && use[x] == Free;
        }
      }
      Subset(g + {x}, f);
    } else if y :| y in g && y !in f {
      Subset(f + {y}, g);
    }
  }

  /** The four lowest free blocks are under four bitmap blocks. */
  ghost predicate Scattered(l: Layout, use: map<nat, Use>) {
    exists f: set<nat> :: Lowest(use, f) && |f| == 4 && |Bits(l, f)| == 4
  }

  /** When a write of blocks a .. a + 3 logs ten: three of them and the indirect block are missing, and the four blocks
      to be allocated are under four bitmap blocks. */
  ghost predicate LogsTen(l: Layout, s: Snap, i: nat, a: nat, b: nat) {
    && HasFile(s, i) && b == a + 4 && NDIRECT < b <= MAXFILE && TableOf(s, i) == 0
    && (forall k: nat {:trigger At(s, i, k)} :: a < k < b ==> At(s, i, k) == 0) && Scattered(l, s.use)
  }

  /** A write that starts in a block the file has, and reaches into at most three more, logs ten blocks exactly then. */
  lemma TenBlocks(l: Layout, s: Snap, t: Snap, i: nat, a: nat, b: nat)
    requires Whole(l, s, t, i, a, b) && s.logged == {} && Ok(l, t) && IBlock(l, i) < l.bmapstart
    requires HasFile(s, i) && HasFile(t, i) && a < b <= a + 4 && b <= MAXFILE && (b == a + 4 ==> At(s, i, a) != 0)
    ensures |t.logged| == 10 <==> LogsTen(l, s, i, a, b)
  {
    ExactCount(l, s, t, i, a, b);
    WholeIsThere(l, s, t, i, a, b);
    TenOrNot(l, s, t, i, a, b, |t.logged|);
  }

  lemma TenOrNot(l: Layout, s: Snap, t: Snap, i: nat, a: nat, b: nat, n: nat)
    requires AllThere(s, t, i, a, b) && Ok(l, t) && a < b <= a + 4 && (b == a + 4 ==> At(s, i, a) != 0)
    requires n == (b - a) + (if Enters(s, t, i, a, b) then 1 else 0) + |Bits(l, Gained(s, t, i, a, b))| + 1
    ensures n == 10 <==> LogsTen(l, s, i, a, b)
  {
    GainedCount(s, t, i, a, b);
    BitsCount(l, Gained(s, t, i, a, b));
    if n == 10 {
      LoggedTen(l, s, t, i, a, b);
    }
    if LogsTen(l, s, i, a, b) {
      AllGained(l, s, t, i, a);
      ScatteredBits(l, s.use, Gained(s, t, i, a, b));
    }
  }

  lemma LoggedTen(l: Layout, s: Snap, t: Snap, i: nat, a: nat, b: nat)
    requires AllThere(s, t, i, a, b) && b == a + 4 && At(s, i, a) != 0 && Enters(s, t, i, a, b)
    requires |Gained(s, t, i, a, b)| == 4 == |Bits(l, Gained(s, t, i, a, b))|
    ensures LogsTen(l, s, i, a, b)
  {
    FourGained(s, t, i, a);
    var k: nat :| a <= k < b && NDIRECT <= k < MAXFILE && At(s, i, k) == 0 && At(t, i, k) != 0;
    assert Scattered(l, s.use);
  }

  lemma ScatteredBits(l: Layout, use: map<nat, Use>, g: set<nat>)
    requires Scattered(l, use) && Lowest(use, g) && |g| == 4
    ensures |Bits(l, g)| == 4
  {
    var f :| Lowest(use, f) && |f| == 4 && |Bits(l, f)| == 4;
    LowestIsOne(use, f, g);
  }

  lemma OneWasThere(s: Snap, t: Snap, i: nat, a: nat, k: nat)
    requires Fills(s, t, i, a, a + 4) && At(s, i, a) != 0 && a < k < a + 4 && At(s, i, k) != 0
    ensures |NewBlocks(s, t, i, a, a + 4)| <= 2
  {
    BlocksCount(t, i, a + 1, k);
    BlocksCount(t, i, k + 1, a + 4);
    Sizes(Blocks(t, i, a + 1, k), Blocks(t, i, k + 1, a + 4));
    Subset(NewBlocks(s, t, i, a, a + 4), Blocks(t, i, a + 1, k) + Blocks(t, i, k + 1, a + 4));
  }

  lemma FourGained(s: Snap, t: Snap, i: nat, a: nat)
    requires Fills(s, t, i, a, a + 4) && At(s, i, a) != 0 && |Gained(s, t, i, a, a + 4)| == 4
    ensures TableOf(s, i) == 0 && forall k: nat {:trigger At(s, i, k)} :: a < k < a + 4 ==> At(s, i, k) == 0
  {
    NewBlocksCount(s, t, i, a, a + 4);
    Sizes(NewBlocks(s, t, i, a, a + 4), NewTable(s, t, i));
    Subset(NewTable(s, t, i), {TableOf(t, i)});
    forall k: nat | a < k < a + 4
      ensures At(s, i, k) == 0
    {
      if At(s, i, k) != 0 {
        OneWasThere(s, t, i, a, k);
      }
    }
  }

  lemma AllGained(l: Layout, s: Snap, t: Snap, i: nat, a: nat)
    requires Ok(l, t) && Fills(s, t, i, a, a + 4) && At(s, i, a) != 0 && NDIRECT < a + 4
    requires TableOf(s, i) == 0 && forall k: nat {:trigger At(s, i, k)} :: a < k < a + 4 ==> At(s, i, k) == 0
    requires forall k: nat {:trigger At(t, i, k)} :: a <= k < a + 4 ==> At(t, i, k) != 0
    ensures Enters(s, t, i, a, a + 4) && |Gained(s, t, i, a, a + 4)| == 4
  {
    assert At(t, i, a + 3) != 0 && At(s, i, a + 3) == 0;
    ThreeNew(l, s, t, i, a);
    TablePlace(l, t, i);
    assert NewTable(s, t, i) == {TableOf(t, i)};
    Sizes(NewBlocks(s, t, i, a, a + 4), NewTable(s, t, i));
  }

  lemma ThreeNew(l: Layout, s: Snap, t: Snap, i: nat, a: nat)
    requires Ok(l, t) && HasFile(s, i) && HasFile(t, i) && a + 4 <= MAXFILE && At(s, i, a) != 0
    requires forall k: nat {:trigger At(s, i, k)} :: a < k < a + 4 ==> At(s, i, k) == 0
    requires forall k: nat {:trigger At(t, i, k)} :: a <= k < a + 4 ==> At(t, i, k) != 0
    ensures |NewBlocks(s, t, i, a, a + 4)| == 3
    ensures forall x :: x in NewBlocks(s, t, i, a, a + 4) ==> x in t.use && t.use[x].Piece?
  {
    BlocksDiffer(l, t, i, a + 1, a + 4);
    forall x | x in Blocks(t, i, a + 1, a + 4)
      ensures x in NewBlocks(s, t, i, a, a + 4) && x in t.use && t.use[x].Piece?
    {
      var k: nat :| a + 1 <= k < a + 4 && x == At(t, i, k);
      PlaceOf(l, t, i, k);
    }
    assert NewBlocks(s, t, i, a, a + 4) == Blocks(t, i, a + 1, a + 4);
  }
}
