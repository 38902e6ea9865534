/** When a write finds room: exactly when as many blocks are free as it has to allocate. */
module WriteRoom {
  import opened DiskBytes
  import opened FileBlocks
  import opened WriteCosts

  function FreeBlocks(use: map<nat, Use>): set<nat> {
    set b | b in use && use[b] == Free
  }

  /** The blocks from a up to b that the file does not have. */
  ghost function Missing(s: Snap, i: nat, a: nat, b: nat): set<nat>
    requires HasFile(s, i)
  {
    set k | a <= k < b && k < MAXFILE && At(s, i, k) == 0
  }

  ghost predicate NeedsTable(s: Snap, i: nat, a: nat, b: nat)
    requires HasFile(s, i)
  {
    TableOf(s, i) == 0 && WantsEntry(s, i, a, b)
  }

  /** One for each missing block, and one for the indirect block if it is missing and one of them goes there. */
  ghost function Needs(s: Snap, i: nat, a: nat, b: nat): nat
    requires HasFile(s, i)
  {
    |Missing(s, i, a, b)| + if NeedsTable(s, i, a, b) then 1 else 0
  }

  /** There is room for writing blocks a up to b of file i. */
  ghost predicate Enough(s: Snap, i: nat, a: nat, b: nat) {
    HasFile(s, i) && |FreeBlocks(s.use)| >= Needs(s, i, a, b)
  }

  /** The disk is full, and block k of the file is not there. */
  ghost predicate Stuck(l: Layout, t: Snap, i: nat, k: int) {
    Full(l, t.disk) && HasFile(t, i) && 0 <= k < MAXFILE && At(t, i, k) == 0
  }

  lemma NewMore(s: Snap, t: Snap, i: nat, a: nat, b: nat)
    requires HasFile(s, i) && HasFile(t, i) && a < b <= MAXFILE
    ensures NewBlocks(s, t, i, a, b) == NewBlocks(s, t, i, a, b - 1) + NewBlocks(s, t, i, b - 1, b)
    ensures NewBlocks(s, t, i, b - 1, b) ==
              if At(s, i, b - 1) == 0 && At(t, i, b - 1) != 0 then {At(t, i, b - 1)} else {}
  {
  }

  lemma {:induction false} NewCount(s: Snap, t: Snap, i: nat, a: nat, b: nat)
    requires HasFile(s, i) && HasFile(t, i) && a <= b <= MAXFILE
    ensures |NewBlocks(s, t, i, a, b)| <= |Missing(s, i, a, b)|
    decreases b - a
  {
    if a == b {
      assert NewBlocks(s, t, i, a, b) == {};
    } else {
      NewCount(s, t, i, a, b - 1);
      MissingMore(s, i, a, b);
      NewMore(s, t, i, a, b);
      Sizes(NewBlocks(s, t, i, a, b - 1), NewBlocks(s, t, i, b - 1, b));
    }
  }

  lemma MissingMore(s: Snap, i: nat, a: nat, b: nat)
    requires HasFile(s, i) && a < b <= MAXFILE
    ensures |Missing(s, i, a, b)| == |Missing(s, i, a, b - 1)| + if At(s, i, b - 1) == 0 then 1 else 0
  {
    var one := if At(s, i, b - 1) == 0 then {b - 1} else {};
    assert Missing(s, i, a, b) == Missing(s, i, a, b - 1) + one;
    Sizes(Missing(s, i, a, b - 1), one);
  }

  /** When all are there afterwards, each missing one has got a block of its own. */
  lemma {:induction false} AllNew(l: Layout, s: Snap, t: Snap, i: nat, a: nat, b: nat)
    requires Ok(l, t) && HasFile(s, i) && HasFile(t, i) && a <= b <= MAXFILE
    requires forall k: nat {:trigger At(t, i, k)} :: a <= k < b ==> At(t, i, k) != 0
    ensures |NewBlocks(s, t, i, a, b)| == |Missing(s, i, a, b)|
    decreases b - a
  {
    if a == b {
      assert NewBlocks(s, t, i, a, b) == Missing(s, i, a, b) == {};
    } else {
      AllNew(l, s, t, i, a, b - 1);
      MissingMore(s, i, a, b);
      LastDiffers(l, t, i, a, b - 1);
      assert NewBlocks(s, t, i, a, b - 1) <= Blocks(t, i, a, b - 1);
      NewMore(s, t, i, a, b);
      Sizes(NewBlocks(s, t, i, a, b - 1), NewBlocks(s, t, i, b - 1, b));
    }
  }

  lemma TookAll(l: Layout, s: Snap, t: Snap, i: nat, a: nat, b: nat, d: nat)
    requires Costs(l, s, t, i, a, b, d) && Ok(l, t) && Full(l, t.disk) && HasFile(s, i) && HasFile(t, i)
    ensures |FreeBlocks(s.use)| <= |NewBlocks(s, t, i, a, b)| + |NewTable(s, t, i)|
    ensures NewTable(s, t, i) != {} ==> WantsEntry(s, i, a, b)
  {
    assert Opened(0);
    forall x | x in FreeBlocks(s.use)
      ensures x in NewBlocks(s, t, i, a, b) + NewTable(s, t, i)
    {
      assert BlockOk(l, t.disk, t.use, x);
    }
    Subset(FreeBlocks(s.use), NewBlocks(s, t, i, a, b) + NewTable(s, t, i));
    Sizes(NewBlocks(s, t, i, a, b), NewTable(s, t, i));
  }

  lemma Filled(l: Layout, s: Snap, t: Snap, i: nat, a: nat, b: nat, d: nat)
    requires Costs(l, s, t, i, a, b, d)
    ensures a <= d <= b <= d + 1 && Fills(s, t, i, a, b)
  {
    assert Opened(0);
  }

  /** A write that gets stuck has taken all free blocks, and they were too few. */
  lemma StuckIsShort(l: Layout, s: Snap, t: Snap, i: nat, a: nat, b: nat, c: nat, d: nat)
    requires Costs(l, s, t, i, a, b, d) && b == d + 1 && Ok(l, t) && Stuck(l, t, i, d) && b <= c <= MAXFILE
    ensures !Enough(s, i, a, c)
  {
    Filled(l, s, t, i, a, b, d);
    TookAll(l, s, t, i, a, b, d);
    assert At(s, i, d) == 0;
    FewerNew(s, t, i, a, d, c);
    Subset(NewTable(s, t, i), {TableOf(t, i)});
  }

  lemma FewerNew(s: Snap, t: Snap, i: nat, a: nat, d: nat, c: nat)
    requires HasFile(s, i) && HasFile(t, i) && a <= d < c <= MAXFILE && At(s, i, d) == At(t, i, d) == 0
    ensures |NewBlocks(s, t, i, a, d + 1)| < |Missing(s, i, a, c)|
  {
    NewMore(s, t, i, a, d + 1);
    NewCount(s, t, i, a, d);
    MissingMore(s, i, a, d + 1);
    Subset(Missing(s, i, a, d + 1), Missing(s, i, a, c));
  }

  /** One that is not cut short found what it needed. */
  lemma WholeIsEnough(l: Layout, s: Snap, t: Snap, i: nat, a: nat, b: nat)
    requires Costs(l, s, t, i, a, b, b) && Ok(l, t) && b <= MAXFILE
    ensures Enough(s, i, a, b)
  {
    assert Opened(0);
    var newOnes, table := NewBlocks(s, t, i, a, b), NewTable(s, t, i);
    AllNew(l, s, t, i, a, b);
    assert newOnes + table <= FreeBlocks(s.use);
    Subset(newOnes + table, FreeBlocks(s.use));
    if NeedsTable(s, i, a, b) {
      TableIsNew(l, s, t, i, a, b);
    }
    Sizes(newOnes, table);
  }

  lemma TableIsNew(l: Layout, s: Snap, t: Snap, i: nat, a: nat, b: nat)
    requires Ok(l, t) && HasFile(s, i) && HasFile(t, i) && NeedsTable(s, i, a, b) && b <= MAXFILE
    requires forall k: nat {:trigger At(t, i, k)} :: a <= k < b ==> At(t, i, k) != 0
    ensures |NewTable(s, t, i)| == 1 && NewBlocks(s, t, i, a, b) !! NewTable(s, t, i)
  {
    var k: nat :| a <= k < b && NDIRECT <= k < MAXFILE && At(s, i, k) == 0;
    assert At(t, i, k) != 0;
    TablePlace(l, t, i);
    assert NewTable(s, t, i) == {TableOf(t, i)};
    forall x | x in NewBlocks(s, t, i, a, b)
      ensures x in t.use && t.use[x].Piece?
    {
      var m: nat :| a <= m < b && m < MAXFILE && x == At(t, i, m);
      PlaceOf(l, t, i, m);
    }
  }

  /** Whether a write of blocks a up to c comes to its end, from what its loop has done. */
  lemma RoomDecides(l: Layout, s: Snap, t: Snap, i: nat, a: nat, b: nat, c: nat, done: bool)
    requires Rounds(l, s, t, i, a, b, done) && Ok(l, t) && c <= MAXFILE
    requires if done then b == c else b <= c && Stuck(l, t, i, b - 1)
    ensures done <==> Enough(s, i, a, c)
  {
    if done {
      WholeIsEnough(l, s, t, i, a, b);
    } else {
      StuckIsShort(l, s, t, i, a, b, c, b - 1);
    }
  }
}
