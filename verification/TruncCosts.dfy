/** Which blocks it takes to free a file, and on which disks that is never more than an operation may log. */
module TruncCosts {
  import opened Params
  import opened DiskBytes
  import opened FileBlocks
  import opened FileContents
  import opened FileSystem
  import opened WriteCosts

  /** The number of bitmap blocks. */
  function Bitmaps(l: Layout): nat
    requires LayoutOk(l)
  {
    (l.size - 1) / BPB + 1
  }

  /** What itrunc of file i logs. */
  function Logs(l: Layout, use: map<nat, Use>, i: nat): set<nat> {
    Bits(l, BlocksOf(use, i)) + {IBlock(l, i)}
  }

  /** Freeing file i logs no more than an operation may. */
  ghost predicate Fits(l: Layout, s: Snap, i: nat) {
    |Logs(l, s.use, i)| <= MAXOPBLOCKS
  }

  /** The n numbers from a on. */
  function Span(a: nat, n: nat): (s: set<nat>)
    ensures forall x :: x in s <==> a <= x < a + n
  {
    if n == 0 then {} else Span(a, n - 1) + {a + n - 1}
  }

  lemma {:induction false} SpanSize(a: nat, n: nat)
    ensures |Span(a, n)| == n
  {
    if n > 0 {
      SpanSize(a, n - 1);
    }
  }

  lemma FewBitmaps(l: Layout, s: Snap, i: nat)
    requires Ok(l, s) && Bitmaps(l) < MAXOPBLOCKS
    ensures Fits(l, s, i)
  {
    var all := Span(l.bmapstart, Bitmaps(l));
    forall x | x in Bits(l, BlocksOf(s.use, i))
      ensures x in all
    {
      var b :| b in BlocksOf(s.use, i) && x == BBlock(l, b);
      assert b < l.size && b / BPB <= (l.size - 1) / BPB;
    }
    SpanSize(l.bmapstart, Bitmaps(l));
    Subset(Bits(l, BlocksOf(s.use, i)), all);
    Sizes(Bits(l, BlocksOf(s.use, i)), {IBlock(l, i)});
  }

  // ---------- a file under ten bitmap blocks ----------

  /** Block k of the file. */
  function Place(l: Layout, k: nat): nat {
    if k == 0 then l.nmeta + 1 else k * BPB
  }

  function UseOf(l: Layout, b: nat): Use {
    if b < l.nmeta then Meta
    else if b == l.nmeta then Piece(ROOTINO, 0)
    else if b == l.nmeta + 1 then Piece(ROOTINO + 1, 0)
    else if b % BPB == 0 && b / BPB < MAXOPBLOCKS then Piece(ROOTINO + 1, b / BPB)
    else Free
  }

  function TenBlockFile(l: Layout): Inode {
    Inode(2, 0, MAXOPBLOCKS * BSIZE, seq(NDIRECT + 1, k requires 0 <= k => if k < MAXOPBLOCKS then Place(l, k) else 0))
  }

  function BlockOf(l: Layout, b: nat): Block
    requires l.nmeta + 2 <= BPB
  {
    if b == l.bmapstart then FirstBits(l.nmeta + 2)
    else if l.bmapstart < b < l.bmapstart + MAXOPBLOCKS then FirstBits(1)
    else Zero()
  }

  /** Beside the root directory one file, which nobody links to, with its blocks under ten bitmap blocks. */
  ghost function Spread(l: Layout): Snap
    requires l.nmeta + 2 <= BPB
  {
    Snap(seq(l.size, b requires 0 <= b => BlockOf(l, b)), RootOnly(l)[ROOTINO + 1 := TenBlockFile(l)],
         map b: nat | 0 <= b < l.size :: UseOf(l, b), {})
  }

  /** What the witness asks of a layout. */
  predicate HasRoom(l: Layout) {
    LayoutOk(l) && l.nmeta + 2 <= BPB && l.ninodes > ROOTINO + 1 && IBlock(l, ROOTINO + 1) < l.bmapstart
  }

  lemma PlaceOk(l: Layout, k: nat)
    requires HasRoom(l) && Bitmaps(l) >= MAXOPBLOCKS && k < MAXOPBLOCKS
    ensures l.nmeta < Place(l, k) < l.size && UseOf(l, Place(l, k)) == Piece(ROOTINO + 1, k)
    ensures BBlock(l, Place(l, k)) == l.bmapstart + k
  {
    if k > 0 {
      assert k * BPB / BPB == k && k * BPB % BPB == 0;
    }
  }

  lemma BlockIsOk(l: Layout, b: nat)
    requires HasRoom(l) && Bitmaps(l) >= MAXOPBLOCKS && b < l.size
    ensures var s := Spread(l); BlockOk(l, s.disk, s.use, b) && UseOk(s.disk, s.ino, s.use, b)
  {
    var s := Spread(l);
    BBlockIsMeta(l, b);
    FirstBitsAre(l.nmeta + 2, b % BPB);
    FirstBitsAre(1, b % BPB);
    ZeroBits(b % BPB);
    assert s.disk[BBlock(l, b)] == BlockOf(l, BBlock(l, b));
    if s.use[b].Piece? && s.use[b].inum == ROOTINO + 1 {
      assert b == Place(l, s.use[b].n);
    }
  }

  lemma SpreadOk(l: Layout)
    requires HasRoom(l) && Bitmaps(l) >= MAXOPBLOCKS
    ensures Ok(l, Spread(l)) && Settled(Spread(l).use) && Dense(Spread(l).disk, Spread(l).ino)
  {
    var s := Spread(l);
    forall b | 0 <= b < l.size
      ensures BlockOk(l, s.disk, s.use, b) && UseOk(s.disk, s.ino, s.use, b)
    {
      BlockIsOk(l, b);
    }
    forall i | i in s.ino
      ensures FileOk(s.disk, s.use, i, s.ino[i]) && NoHoles(s.disk, s.ino[i])
    {
      forall n | 0 <= n < MAXFILE
        ensures PieceOk(s.disk, s.use, i, s.ino[i], n) && (n * BSIZE < s.ino[i].size ==> Slot(s.disk, s.ino[i], n) != 0)
      {
        if i == ROOTINO + 1 && n < MAXOPBLOCKS {
          PlaceOk(l, n);
        }
      }
    }
  }

  lemma ManyBitmaps(l: Layout)
    requires HasRoom(l) && Bitmaps(l) >= MAXOPBLOCKS
    ensures !Fits(l, Spread(l), ROOTINO + 1)
  {
    var logs, bits := Logs(l, Spread(l).use, ROOTINO + 1), Span(l.bmapstart, MAXOPBLOCKS);
    forall x | x in bits
      ensures x in logs
    {
      BitmapLogged(l, x - l.bmapstart);
    }
    SpanSize(l.bmapstart, MAXOPBLOCKS);
    Subset(bits + {IBlock(l, ROOTINO + 1)}, logs);
  }

  lemma BitmapLogged(l: Layout, k: nat)
    requires HasRoom(l) && Bitmaps(l) >= MAXOPBLOCKS && k < MAXOPBLOCKS
    ensures l.bmapstart + k in Logs(l, Spread(l).use, ROOTINO + 1)
  {
    PlaceOk(l, k);
    var b := Place(l, k);
    assert b in BlocksOf(Spread(l).use, ROOTINO + 1) && BBlock(l, b) == l.bmapstart + k;
  }

  /** A file system between operations, and a file of it that iput frees. */
  ghost predicate CanFree(l: Layout, s: Snap, i: nat) {
    Ok(l, s) && Settled(s.use) && Dense(s.disk, s.ino) && i in s.ino && s.ino[i].nlink == 0
  }

  /** iput of any file on any disk of this layout stays within MAXOPBLOCKS exactly when there are fewer than
      MAXOPBLOCKS bitmap blocks. */
  lemma FreeingFits(l: Layout)
    requires HasRoom(l)
    ensures (forall s: Snap, i: nat :: CanFree(l, s, i) ==> Fits(l, s, i)) <==> Bitmaps(l) < MAXOPBLOCKS
  {
    if Bitmaps(l) < MAXOPBLOCKS {
      forall s: Snap, i: nat | CanFree(l, s, i)
        ensures Fits(l, s, i)
      {
        FewBitmaps(l, s, i);
      }
    } else {
      SpreadOk(l);
      ManyBitmaps(l);
      assert CanFree(l, Spread(l), ROOTINO + 1);
    }
  }
}
