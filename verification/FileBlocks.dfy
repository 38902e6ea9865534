/** Which disk block belongs to which file: the bitmap, the block numbers in inodes and in indirect
    blocks, and the single use each block has. */
module FileBlocks {
  import opened DiskBytes

  const NDIRECT := 12
  const MAXFILE := NDIRECT + NINDIRECT
  const IPB := 16  // inodes per block

  type Disk = seq<Block>

  /** nmeta is the number of the first data block. */
  datatype Layout = Layout(size: nat, nmeta: nat, bmapstart: nat, inodestart: nat, ninodes: nat)

  /** An inode: addrs holds NDIRECT block numbers and that of the indirect block; 0 is none. */
  datatype Inode = Inode(kind: nat, nlink: nat, size: nat, addrs: seq<nat>)

  /** Piece(i, n) is block n of file i, Table(i) its indirect block. Held blocks are marked in use
      but not yet, or no longer, in any inode. */
  datatype Use = Free | Meta | Table(inum: nat) | Piece(inum: nat, n: nat) | Held

  predicate LayoutOk(l: Layout) {
    && 0 < l.nmeta <= l.size <= 0x1_0000_0000
    && (l.size - 1) / BPB + l.bmapstart < l.nmeta
  }

  /** The bitmap block of block b. */
  function BBlock(l: Layout, b: nat): nat {
    b / BPB + l.bmapstart
  }

  function IBlock(l: Layout, i: nat): nat {
    i / IPB + l.inodestart
  }

  predicate Shape(l: Layout, disk: Disk) {
    LayoutOk(l) && |disk| == l.size
  }

  lemma BBlockIsMeta(l: Layout, b: nat)
    requires LayoutOk(l) && b < l.size
    ensures l.bmapstart <= BBlock(l, b) < l.nmeta
  {
  }

  function Used(l: Layout, disk: Disk, b: nat): bool
    requires Shape(l, disk) && b < l.size
  {
    BBlockIsMeta(l, b);
    Bit(disk[BBlock(l, b)], b % BPB)
  }

  /** The block number of block n of a file, or 0. */
  function Slot(disk: Disk, x: Inode, n: nat): nat
    requires |x.addrs| == NDIRECT + 1 && n < MAXFILE
  {
    if n < NDIRECT then x.addrs[n]
    else if x.addrs[NDIRECT] == 0 || x.addrs[NDIRECT] >= |disk| then 0
    else Word(disk[x.addrs[NDIRECT]], n - NDIRECT)
  }

  /** No block is free. */
  ghost predicate Full(l: Layout, disk: Disk) {
    Shape(l, disk) && forall c :: 0 <= c < l.size ==> Used(l, disk, c)
  }

  // ---------- the invariant ----------

  ghost predicate BlockOk(l: Layout, disk: Disk, use: map<nat, Use>, b: nat) {
    && Shape(l, disk) && b < l.size && b in use
    && (Used(l, disk, b) <==> use[b] != Free)
    && (use[b] == Meta <==> b < l.nmeta)
  }

  ghost predicate PieceOk(disk: Disk, use: map<nat, Use>, i: nat, x: Inode, n: nat) {
    && |x.addrs| == NDIRECT + 1 && n < MAXFILE
    && (Slot(disk, x, n) != 0 ==> Slot(disk, x, n) in use && use[Slot(disk, x, n)] == Piece(i, n))
  }

  ghost predicate FileOk(disk: Disk, use: map<nat, Use>, i: nat, x: Inode) {
    && |x.addrs| == NDIRECT + 1
    && (x.addrs[NDIRECT] != 0 ==>
           x.addrs[NDIRECT] < |disk| && x.addrs[NDIRECT] in use && use[x.addrs[NDIRECT]] == Table(i))
    && forall n {:trigger PieceOk(disk, use, i, x, n)} :: 0 <= n < MAXFILE ==> PieceOk(disk, use, i, x, n)
  }

  ghost predicate UseOk(disk: Disk, ino: map<nat, Inode>, use: map<nat, Use>, b: nat) {
    b in use && b < |disk| &&
    match use[b]
    case Piece(i, n) => b != 0 && n < MAXFILE && i in ino && |ino[i].addrs| == NDIRECT + 1 && Slot(disk, ino[i], n) == b
    case Table(i) => b != 0 && i in ino && |ino[i].addrs| == NDIRECT + 1 && ino[i].addrs[NDIRECT] == b
    case _ => true
  }

  /** Every block has one use; the bitmap, the inodes and the indirect blocks agree with it. */
  ghost predicate Inv(l: Layout, disk: Disk, ino: map<nat, Inode>, use: map<nat, Use>) {
    && Shape(l, disk)
    && (forall b :: b in use ==> b < l.size)
    && (forall b {:trigger BlockOk(l, disk, use, b)} :: 0 <= b < l.size ==> BlockOk(l, disk, use, b))
    && (forall i {:trigger ino[i]} :: i in ino ==> FileOk(disk, use, i, ino[i]))
    && (forall b {:trigger UseOk(disk, ino, use, b)} :: b in use ==> UseOk(disk, ino, use, b))
  }

  /** A bitmap bit is set exactly when its block is metadata, held, or the block of exactly one place
      in exactly one inode; two places never share a block. */
  lemma OneOwner(l: Layout, disk: Disk, ino: map<nat, Inode>, use: map<nat, Use>, i: nat, n: nat, j: nat, k: nat)
    requires Inv(l, disk, ino, use) && i in ino && n < MAXFILE && j in ino && k < MAXFILE
    ensures |ino[i].addrs| == NDIRECT + 1 && |ino[j].addrs| == NDIRECT + 1
    ensures var b := Slot(disk, ino[i], n);
            b != 0 ==>
              && l.nmeta <= b < l.size && Used(l, disk, b) && b != ino[j].addrs[NDIRECT]
              && (b == Slot(disk, ino[j], k) ==> i == j && n == k)
    ensures var t := ino[i].addrs[NDIRECT];
            t != 0 ==> l.nmeta <= t < l.size && Used(l, disk, t) && (t == ino[j].addrs[NDIRECT] ==> i == j)
  {
    assert FileOk(disk, use, i, ino[i]) && FileOk(disk, use, j, ino[j]);
    assert PieceOk(disk, use, i, ino[i], n) && PieceOk(disk, use, j, ino[j], k);
    var b, t := Slot(disk, ino[i], n), ino[i].addrs[NDIRECT];
    assert b != 0 ==> BlockOk(l, disk, use, b);
    assert t != 0 ==> BlockOk(l, disk, use, t);
  }

  /** The block number in place u, which is a slot of a file or the one for its indirect block, is b. */
  predicate Holds(disk: Disk, ino: map<nat, Inode>, u: Use, b: nat) {
    match u
    case Piece(i, n) => i in ino && |ino[i].addrs| == NDIRECT + 1 && n < MAXFILE && Slot(disk, ino[i], n) == b
    case Table(i) => i in ino && |ino[i].addrs| == NDIRECT + 1 && ino[i].addrs[NDIRECT] == b
    case _ => false
  }

  /** b is in exactly one place of exactly one inode. */
  ghost predicate OwnedOnce(disk: Disk, ino: map<nat, Inode>, b: nat) {
    exists u :: Holds(disk, ino, u, b) && forall v :: Holds(disk, ino, v, b) ==> v == u
  }

  /** In between, an operation may hold blocks. */
  lemma SetBitsAreOwned(l: Layout, disk: Disk, ino: map<nat, Inode>, use: map<nat, Use>, b: nat)
    requires Inv(l, disk, ino, use) && l.nmeta <= b < l.size
    ensures b in use && (Used(l, disk, b) <==> use[b] == Held || OwnedOnce(disk, ino, b))
    ensures use[b] == Held ==> !OwnedOnce(disk, ino, b)
  {
    assert BlockOk(l, disk, use, b) && UseOk(disk, ino, use, b);
    forall v | Holds(disk, ino, v, b)
      ensures v == use[b]
    {
      PlaceIsUse(l, disk, ino, use, v, b);
    }
    assert use[b].Piece? || use[b].Table? ==> Holds(disk, ino, use[b], b);
  }

  lemma PlaceIsUse(l: Layout, disk: Disk, ino: map<nat, Inode>, use: map<nat, Use>, v: Use, b: nat)
    requires Inv(l, disk, ino, use) && Holds(disk, ino, v, b) && b != 0
    ensures b in use && use[b] == v
  {
    assert FileOk(disk, use, v.inum, ino[v.inum]);
    assert v.Piece? ==> PieceOk(disk, use, v.inum, ino[v.inum], v.n);
  }

  /** No operation holds a block. */
  ghost predicate Settled(use: map<nat, Use>) {
    forall b {:trigger use[b]} :: b in use ==> use[b] != Held
  }

  /** Exactly the blocks that were held are. */
  ghost predicate SameHeld(use: map<nat, Use>, use': map<nat, Use>) {
    use'.Keys == use.Keys && forall b {:trigger use'[b]} :: b in use ==> (use'[b] == Held <==> use[b] == Held)
  }

  /** Between operations a bitmap bit is set exactly when its block is metadata or in exactly one place of exactly one
      inode: no block is leaked, none is shared, and none is free and in use. */
  lemma ExactOwner(l: Layout, disk: Disk, ino: map<nat, Inode>, use: map<nat, Use>, b: nat)
    requires Inv(l, disk, ino, use) && Settled(use) && b < l.size
    ensures Used(l, disk, b) <==> b < l.nmeta || OwnedOnce(disk, ino, b)
    ensures 0 < b < l.nmeta ==> !OwnedOnce(disk, ino, b)
  {
    assert BlockOk(l, disk, use, b);
    if b >= l.nmeta {
      SetBitsAreOwned(l, disk, ino, use, b);
    } else if b > 0 && OwnedOnce(disk, ino, b) {
      var u :| Holds(disk, ino, u, b);
      PlaceIsUse(l, disk, ino, use, u, b);
    }
  }

  // ---------- steps that keep it ----------

  function Mark(l: Layout, disk: Disk, b: nat, v: bool): Disk
    requires Shape(l, disk) && b < l.size
  {
    BBlockIsMeta(l, b);
    disk[BBlock(l, b) := PutBit(disk[BBlock(l, b)], b % BPB, v)]
  }

  lemma MarkAt(l: Layout, disk: Disk, b: nat, v: bool, c: nat)
    requires Shape(l, disk) && b < l.size && c < l.size
    ensures Shape(l, Mark(l, disk, b, v)) && Used(l, Mark(l, disk, b, v), c) == if c == b then v else Used(l, disk, c)
  {
    BBlockIsMeta(l, b);
    BBlockIsMeta(l, c);
    PutBitAt(disk[BBlock(l, b)], b % BPB, v, c % BPB);
    assert b == b / BPB * BPB + b % BPB && c == c / BPB * BPB + c % BPB;
  }

  /** Writing blocks that are not indirect blocks leaves every slot. */
  lemma SlotsKept(disk: Disk, e: Disk, use: map<nat, Use>, i: nat, x: Inode)
    requires FileOk(disk, use, i, x) && |e| == |disk|
    requires forall b {:trigger e[b]} :: 0 <= b < |disk| && b in use && use[b] == Table(i) ==> e[b] == disk[b]
    ensures forall n {:trigger Slot(e, x, n)} :: 0 <= n < MAXFILE ==> Slot(e, x, n) == Slot(disk, x, n)
  {
  }

  ghost predicate SameTables(disk: Disk, e: Disk, use: map<nat, Use>) {
    |e| == |disk| && forall b {:trigger e[b]} :: 0 <= b < |disk| && b in use && use[b].Table? ==> e[b] == disk[b]
  }

  lemma FilesKept(l: Layout, disk: Disk, ino: map<nat, Inode>, use: map<nat, Use>, e: Disk, now: map<nat, Use>, i: nat)
    requires Inv(l, disk, ino, use) && SameTables(disk, e, use) && i in ino
    requires forall b {:trigger now[b]} {:trigger use[b]} :: b in use && (use[b].Table? || use[b].Piece?) ==>
               b in now && now[b] == use[b]
    ensures FileOk(e, now, i, ino[i])
  {
    assert FileOk(disk, use, i, ino[i]);
    SlotsKept(disk, e, use, i, ino[i]);
    forall n | 0 <= n < MAXFILE
      ensures PieceOk(e, now, i, ino[i], n)
    {
      assert PieceOk(disk, use, i, ino[i], n);
    }
  }

  lemma UsesKept(l: Layout, disk: Disk, ino: map<nat, Inode>, use: map<nat, Use>, e: Disk, now: map<nat, Use>, b: nat)
    requires Inv(l, disk, ino, use) && SameTables(disk, e, use) && b in use && b in now
    requires now[b] == use[b] || now[b] == Held || now[b] == Free || now[b] == Meta
    ensures UseOk(e, ino, now, b)
  {
    assert UseOk(disk, ino, use, b);
    if use[b].Piece? {
      assert FileOk(disk, use, use[b].inum, ino[use[b].inum]);
      SlotsKept(disk, e, use, use[b].inum, ino[use[b].inum]);
    }
  }

  /** Data blocks, and blocks nobody owns, may be written. */
  lemma WriteBlock(l: Layout, disk: Disk, ino: map<nat, Inode>, use: map<nat, Use>, b: nat, x: Block)
    requires Inv(l, disk, ino, use) && b in use && (use[b].Piece? || use[b] == Held || use[b] == Free)
    ensures b < |disk| && Inv(l, disk[b := x], ino, use)
  {
    assert BlockOk(l, disk, use, b);
    var e := disk[b := x];
    forall c | 0 <= c < l.size
      ensures BlockOk(l, e, use, c)
    {
      assert BlockOk(l, disk, use, c);
      BBlockIsMeta(l, c);
    }
    forall i | i in ino
      ensures FileOk(e, use, i, ino[i])
    {
      FilesKept(l, disk, ino, use, e, use, i);
    }
    forall c | c in use
      ensures UseOk(e, ino, use, c)
    {
      UsesKept(l, disk, ino, use, e, use, c);
    }
  }

  /** Taking a free block or giving a held one back. */
  lemma MarkBlock(l: Layout, disk: Disk, ino: map<nat, Inode>, use: map<nat, Use>, b: nat, v: bool)
    requires Inv(l, disk, ino, use) && b in use && use[b] == (if v then Free else Held)
    ensures b < l.size && Inv(l, Mark(l, disk, b, v), ino, use[b := if v then Held else Free])
  {
    var e, now := Mark(l, disk, b, v), use[b := if v then Held else Free];
    assert BlockOk(l, disk, use, b);
    MarkTables(l, disk, ino, use, b, v);
    forall c | 0 <= c < l.size
      ensures BlockOk(l, e, now, c)
    {
      assert BlockOk(l, disk, use, c);
      MarkAt(l, disk, b, v, c);
    }
    forall i | i in ino
      ensures FileOk(e, now, i, ino[i])
    {
      FilesKept(l, disk, ino, use, e, now, i);
    }
    forall c | c in now
      ensures UseOk(e, ino, now, c)
    {
      UsesKept(l, disk, ino, use, e, now, c);
    }
  }

  lemma MarkTables(l: Layout, disk: Disk, ino: map<nat, Inode>, use: map<nat, Use>, b: nat, v: bool)
    requires Inv(l, disk, ino, use) && b < l.size
    ensures SameTables(disk, Mark(l, disk, b, v), use)
  {
    BBlockIsMeta(l, b);
    assert BlockOk(l, disk, use, BBlock(l, b));
  }

  // ---------- files gain and lose blocks ----------

  function WithAddr(ino: map<nat, Inode>, i: nat, n: nat, b: nat): map<nat, Inode>
    requires i in ino && n < |ino[i].addrs|
  {
    ino[i := ino[i].(addrs := ino[i].addrs[n := b])]
  }

  /** Block n of file i is v in the new state; every other slot, and every indirect block number, is
      what it was, and so is the bitmap. */
  ghost predicate Rewired(l: Layout, disk: Disk, ino: map<nat, Inode>, e: Disk, now: map<nat, Inode>, i: nat, n: nat,
                          v: nat) {
    && Shape(l, disk) && Shape(l, e) && now.Keys == ino.Keys
    && (forall b {:trigger Used(l, e, b)} :: 0 <= b < l.size ==> Used(l, e, b) == Used(l, disk, b))
    && (forall j {:trigger now[j]} {:trigger ino[j]} :: j in ino ==>
           SlotsOf(disk, ino[j], e, now[j], if j == i then n else MAXFILE, v))
  }

  ghost predicate SlotsOf(disk: Disk, x: Inode, e: Disk, y: Inode, n: nat, v: nat) {
    SlotsAre(disk, x, e, y, n, v) && y.addrs[NDIRECT] == x.addrs[NDIRECT]
  }

  ghost predicate SlotsAre(disk: Disk, x: Inode, e: Disk, y: Inode, n: nat, v: nat) {
    && |x.addrs| == NDIRECT + 1 && |y.addrs| == NDIRECT + 1
    && forall k {:trigger Slot(e, y, k)} :: 0 <= k < MAXFILE ==> Slot(e, y, k) == if k == n then v else Slot(disk, x, k)
  }

  /** Filling an empty place with a held block, or emptying a place so that its block is held. */
  lemma Rewire(l: Layout, disk: Disk, ino: map<nat, Inode>, use: map<nat, Use>, e: Disk, now: map<nat, Inode>,
               use': map<nat, Use>, i: nat, n: nat, v: nat)
    requires Inv(l, disk, ino, use) && i in ino && n < MAXFILE && Rewired(l, disk, ino, e, now, i, n, v)
    requires |ino[i].addrs| == NDIRECT + 1
    requires var before := Slot(disk, ino[i], n);
             || (before == 0 && v != 0 && v in use && use[v] == Held && use' == use[v := Piece(i, n)])
             || (before != 0 && v == 0 && use' == use[before := Held])
    ensures Inv(l, e, now, use')
  {
    assert FileOk(disk, use, i, ino[i]) && PieceOk(disk, use, i, ino[i], n);
    forall b | 0 <= b < l.size
      ensures BlockOk(l, e, use', b)
    {
      assert BlockOk(l, disk, use, b);
    }
    forall j | j in now
      ensures FileOk(e, use', j, now[j])
    {
      RewireFile(l, disk, ino, use, e, now, use', i, n, v, j);
    }
    forall b | b in use'
      ensures UseOk(e, now, use', b)
    {
      assert UseOk(disk, ino, use, b) && BlockOk(l, disk, use, b);
      if use[b].Piece? {
        assert SlotsOf(disk, ino[use[b].inum], e, now[use[b].inum], if use[b].inum == i then n else MAXFILE, v);
      }
    }
  }

  lemma RewireFile(l: Layout, disk: Disk, ino: map<nat, Inode>, use: map<nat, Use>, e: Disk, now: map<nat, Inode>,
                   use': map<nat, Use>, i: nat, n: nat, v: nat, j: nat)
    requires Inv(l, disk, ino, use) && i in ino && n < MAXFILE && Rewired(l, disk, ino, e, now, i, n, v)
    requires |ino[i].addrs| == NDIRECT + 1 && j in ino
    requires var before := Slot(disk, ino[i], n);
             || (before == 0 && v != 0 && v in use && use[v] == Held && use' == use[v := Piece(i, n)])
             || (before != 0 && v == 0 && use' == use[before := Held])
    ensures FileOk(e, use', j, now[j])
  {
    assert FileOk(disk, use, i, ino[i]) && PieceOk(disk, use, i, ino[i], n);
    assert FileOk(disk, use, j, ino[j]);
    assert SlotsOf(disk, ino[j], e, now[j], if j == i then n else MAXFILE, v);
    forall k | 0 <= k < MAXFILE
      ensures PieceOk(e, use', j, now[j], k)
    {
      assert PieceOk(disk, use, j, ino[j], k);
    }
  }

  /** A direct block number changes. */
  lemma SetDirect(l: Layout, disk: Disk, ino: map<nat, Inode>, use: map<nat, Use>, i: nat, n: nat, v: nat)
    requires Inv(l, disk, ino, use) && i in ino && n < NDIRECT && |ino[i].addrs| == NDIRECT + 1
    ensures Rewired(l, disk, ino, disk, WithAddr(ino, i, n, v), i, n, v)
  {
    var now := WithAddr(ino, i, n, v);
    forall j | j in ino
      ensures SlotsOf(disk, ino[j], disk, now[j], if j == i then n else MAXFILE, v)
    {
      assert FileOk(disk, use, j, ino[j]);
    }
  }

  /** A block number in the indirect block changes. */
  lemma SetIndirect(l: Layout, disk: Disk, ino: map<nat, Inode>, use: map<nat, Use>, i: nat, n: nat, v: nat)
    requires Inv(l, disk, ino, use) && i in ino && NDIRECT <= n < MAXFILE && |ino[i].addrs| == NDIRECT + 1
    requires ino[i].addrs[NDIRECT] != 0 && v < 0x1_0000_0000
    ensures var t := ino[i].addrs[NDIRECT];
            t < |disk| && Rewired(l, disk, ino, disk[t := PutWord(disk[t], n - NDIRECT, v)], ino, i, n, v)
  {
    var t := ino[i].addrs[NDIRECT];
    assert FileOk(disk, use, i, ino[i]) && BlockOk(l, disk, use, t);
    var e := disk[t := PutWord(disk[t], n - NDIRECT, v)];
    forall b | 0 <= b < l.size
      ensures Used(l, e, b) == Used(l, disk, b)
    {
      BBlockIsMeta(l, b);
    }
    forall j | j in ino
      ensures SlotsOf(disk, ino[j], e, ino[j], if j == i then n else MAXFILE, v)
    {
      assert FileOk(disk, use, j, ino[j]);
      forall k | 0 <= k < MAXFILE
        ensures Slot(e, ino[j], k) == if j == i && k == n then v else Slot(disk, ino[j], k)
      {
        if k >= NDIRECT {
          PutWordAt(disk[t], n - NDIRECT, v, k - NDIRECT);
        }
      }
    }
  }

  /** A held block of zeros becomes the indirect block of a file that has none. */
  lemma AddTable(l: Layout, disk: Disk, ino: map<nat, Inode>, use: map<nat, Use>, i: nat, t: nat)
    requires Inv(l, disk, ino, use) && i in ino && |ino[i].addrs| == NDIRECT + 1 && ino[i].addrs[NDIRECT] == 0
    requires t in use && use[t] == Held && t < |disk| && disk[t] == Zero() && t != 0
    ensures Inv(l, disk, WithAddr(ino, i, NDIRECT, t), use[t := Table(i)])
    ensures SlotsAre(disk, ino[i], disk, WithAddr(ino, i, NDIRECT, t)[i], MAXFILE, 0)
  {
    var now, use' := WithAddr(ino, i, NDIRECT, t), use[t := Table(i)];
    forall k | 0 <= k < MAXFILE
      ensures Slot(disk, now[i], k) == Slot(disk, ino[i], k)
    {
      if k >= NDIRECT {
        ZeroWords(k - NDIRECT);
      }
    }
    forall b | 0 <= b < l.size
      ensures BlockOk(l, disk, use', b)
    {
      assert BlockOk(l, disk, use, b);
    }
    forall j | j in now
      ensures FileOk(disk, use', j, now[j])
    {
      assert FileOk(disk, use, j, ino[j]);
      forall k | 0 <= k < MAXFILE
        ensures PieceOk(disk, use', j, now[j], k)
      {
        assert PieceOk(disk, use, j, ino[j], k);
      }
    }
    forall b | b in use'
      ensures UseOk(disk, now, use', b)
    {
      assert UseOk(disk, ino, use, b);
    }
  }

  /** All blocks reached through the indirect block of file i, and that block, are held. */
  function Detached(use: map<nat, Use>, i: nat): map<nat, Use> {
    map b | b in use ::
        if use[b] == Table(i) || (use[b].Piece? && use[b].inum == i && use[b].n >= NDIRECT) then Held else use[b]
  }

  lemma Detach(l: Layout, disk: Disk, ino: map<nat, Inode>, use: map<nat, Use>, i: nat)
    requires Inv(l, disk, ino, use) && i in ino && |ino[i].addrs| == NDIRECT + 1
    ensures Inv(l, disk, WithAddr(ino, i, NDIRECT, 0), Detached(use, i))
  {
    var now, use' := WithAddr(ino, i, NDIRECT, 0), Detached(use, i);
    forall b | 0 <= b < l.size
      ensures BlockOk(l, disk, use', b)
    {
      assert BlockOk(l, disk, use, b);
    }
    forall j | j in now
      ensures FileOk(disk, use', j, now[j])
    {
      assert FileOk(disk, use, j, ino[j]);
      forall k | 0 <= k < MAXFILE
        ensures PieceOk(disk, use', j, now[j], k)
      {
        assert PieceOk(disk, use, j, ino[j], k);
      }
    }
    forall b | b in use'
      ensures UseOk(disk, now, use', b)
    {
      assert UseOk(disk, ino, use, b);
    }
  }

  // ---------- what bmap does ----------

  /** Every block of every file stays where it is, data blocks keep their bytes, and inodes their other fields. */
  ghost predicate Kept(disk: Disk, ino: map<nat, Inode>, use: map<nat, Use>, e: Disk, now: map<nat, Inode>,
                       use': map<nat, Use>) {
    && |e| == |disk| && now.Keys == ino.Keys && use'.Keys == use.Keys
    && (forall b {:trigger use'[b]} :: b in use && (use[b].Piece? || use[b].Table? || use'[b] == Free) ==>
           use'[b] == use[b])
    && (forall b {:trigger e[b]} :: b in use && b < |disk| && use[b].Piece? ==> e[b] == disk[b])
    && (forall j {:trigger now[j]} :: j in ino ==> now[j].(addrs := ino[j].addrs) == ino[j])
  }

  /** Block n of file i is at b, or is missing when b is 0, and no other slot of any file has changed. */
  ghost predicate Located(disk: Disk, ino: map<nat, Inode>, use: map<nat, Use>, e: Disk, now: map<nat, Inode>,
                          use': map<nat, Use>, i: nat, n: nat, b: nat) {
    && Kept(disk, ino, use, e, now, use')
    && (forall j {:trigger now[j]} :: j in ino ==> SlotsAre(disk, ino[j], e, now[j], if j == i then n else MAXFILE, b))
    && i in ino && |ino[i].addrs| == NDIRECT + 1 && n < MAXFILE
    && (b != 0 ==> b in use && b < |e| && use'[b] == Piece(i, n))
    && (if Slot(disk, ino[i], n) == 0 then b != 0 ==> use[b] == Free && e[b] == Zero() else b == Slot(disk, ino[i], n))
  }

  /** The blocks that a file has gained: block n, at b, if it was missing, and a new indirect block. */
  function Fresh(disk: Disk, x: Inode, y: Inode, n: nat, b: nat): set<nat>
    requires |x.addrs| == NDIRECT + 1 && |y.addrs| == NDIRECT + 1 && n < MAXFILE
  {
    (if Slot(disk, x, n) == 0 then {b} - {0} else {}) + ({y.addrs[NDIRECT]} - {x.addrs[NDIRECT]} - {0})
  }

  /** The indirect block, if a block number has been entered in it. */
  function Entered(disk: Disk, x: Inode, y: Inode, n: nat, b: nat): set<nat>
    requires |x.addrs| == NDIRECT + 1 && |y.addrs| == NDIRECT + 1 && n < MAXFILE
  {
    if Slot(disk, x, n) == 0 && b != 0 && n >= NDIRECT then {y.addrs[NDIRECT]} else {}
  }

  lemma FreshIndirect(disk: Disk, x: Inode, y: Inode, n: nat, b: nat)
    requires |x.addrs| == NDIRECT + 1 && |y.addrs| == NDIRECT + 1 && NDIRECT <= n < MAXFILE && Slot(disk, x, n) == 0
    ensures ({y.addrs[NDIRECT]} - {x.addrs[NDIRECT]} - {0}) + ({b} - {0}) == Fresh(disk, x, y, n, b)
    ensures {} + (if b == 0 then {} else {y.addrs[NDIRECT]}) == Entered(disk, x, y, n, b)
  {
  }

  lemma NothingLocated(l: Layout, disk: Disk, ino: map<nat, Inode>, use: map<nat, Use>, i: nat, n: nat)
    requires Inv(l, disk, ino, use) && i in ino && n < MAXFILE
    ensures |ino[i].addrs| == NDIRECT + 1 && Located(disk, ino, use, disk, ino, use, i, n, Slot(disk, ino[i], n))
  {
    assert FileOk(disk, use, i, ino[i]) && PieceOk(disk, use, i, ino[i], n);
    var b := Slot(disk, ino[i], n);
    assert b != 0 ==> BlockOk(l, disk, use, b);
    forall j | j in ino
      ensures SlotsAre(disk, ino[j], disk, ino[j], if j == i then n else MAXFILE, b)
    {
      assert FileOk(disk, use, j, ino[j]);
    }
  }

  lemma KeptTwice(disk: Disk, ino: map<nat, Inode>, use: map<nat, Use>, e: Disk, now: map<nat, Inode>,
                  use': map<nat, Use>, f: Disk, later: map<nat, Inode>, use'': map<nat, Use>)
    requires Kept(disk, ino, use, e, now, use') && Kept(e, now, use', f, later, use'')
    ensures Kept(disk, ino, use, f, later, use'')
  {
    forall b | b in use && (use[b].Piece? || use[b].Table? || use''[b] == Free)
      ensures use''[b] == use[b]
    {
      assert use'[b] == use[b];
    }
    forall b | b in use && b < |disk| && use[b].Piece?
      ensures f[b] == disk[b]
    {
      assert use'[b] == use[b] && e[b] == disk[b];
    }
    forall j | j in ino
      ensures later[j].(addrs := ino[j].addrs) == ino[j]
    {
      assert now[j].(addrs := ino[j].addrs) == ino[j];
    }
  }

  lemma LocatedTwice(disk: Disk, ino: map<nat, Inode>, use: map<nat, Use>, e: Disk, now: map<nat, Inode>,
                     use': map<nat, Use>, f: Disk, later: map<nat, Inode>, use'': map<nat, Use>, i: nat, n: nat, b: nat)
    requires Located(disk, ino, use, e, now, use', i, n, 0) && Located(e, now, use', f, later, use'', i, n, b)
    requires i in ino && |ino[i].addrs| == NDIRECT + 1 && n < MAXFILE && Slot(disk, ino[i], n) == 0
    ensures Located(disk, ino, use, f, later, use'', i, n, b)
  {
    KeptTwice(disk, ino, use, e, now, use', f, later, use'');
    forall j | j in ino
      ensures SlotsAre(disk, ino[j], f, later[j], if j == i then n else MAXFILE, b)
    {
      assert SlotsAre(disk, ino[j], e, now[j], if j == i then n else MAXFILE, 0);
      assert SlotsAre(e, now[j], f, later[j], if j == i then n else MAXFILE, b);
    }
  }

  /** A held block of zeros is put in an empty place. */
  lemma Placed(l: Layout, disk: Disk, ino: map<nat, Inode>, use: map<nat, Use>, d: Disk, held: map<nat, Use>, e: Disk,
               now: map<nat, Inode>, i: nat, n: nat, b: nat)
    requires Kept(disk, ino, use, d, ino, held) && SameTables(disk, d, use) && Inv(l, disk, ino, use)
    requires Inv(l, d, ino, held)
    requires i in ino && n < MAXFILE && |ino[i].addrs| == NDIRECT + 1 && Slot(disk, ino[i], n) == 0
    requires b != 0 && b in use && b < |d| && use[b] == Free && held == use[b := Held] && d[b] == Zero()
    requires Rewired(l, d, ino, e, now, i, n, b) && e[b] == d[b]
    requires Kept(d, ino, held, e, now, held[b := Piece(i, n)])
    ensures Inv(l, e, now, use[b := Piece(i, n)]) && Located(disk, ino, use, e, now, use[b := Piece(i, n)], i, n, b)
  {
    assert FileOk(disk, use, i, ino[i]);
    SlotsKept(disk, d, use, i, ino[i]);
    assert Slot(d, ino[i], n) == 0;
    assert held[b := Piece(i, n)] == use[b := Piece(i, n)];
    Rewire(l, d, ino, held, e, now, use[b := Piece(i, n)], i, n, b);
    KeptTwice(disk, ino, use, d, ino, held, e, now, use[b := Piece(i, n)]);
    forall j | j in ino
      ensures SlotsAre(disk, ino[j], e, now[j], if j == i then n else MAXFILE, b)
    {
      assert FileOk(disk, use, j, ino[j]);
      SlotsKept(disk, d, use, j, ino[j]);
      assert SlotsOf(d, ino[j], e, now[j], if j == i then n else MAXFILE, b);
    }
  }

  // ---------- what allocation costs ----------

  function Bits(l: Layout, s: set<nat>): set<nat> {
    set b | b in s :: BBlock(l, b)
  }

  /** The blocks took, the lowest free ones, have been allocated, and what has been logged for it: the blocks
      themselves, their bitmap blocks and also. */
  ghost predicate Allots(l: Layout, use: map<nat, Use>, use': map<nat, Use>, g: set<nat>, g': set<nat>, took: set<nat>,
                         also: set<nat>) {
    && SameHeld(use, use') && took <= use.Keys
    && (forall b {:trigger use'[b]} :: b in use ==> (use[b] == Free && use'[b] != Free <==> b in took))
    && (forall b {:trigger use'[b]} :: b in use && use'[b] == Free ==> use[b] == Free)
    && (forall b, c {:trigger b in took, use[c]} :: b in took && c in use && c < b && use[c] == Free ==> c in took)
    && g' == g + took + Bits(l, took) + also
  }

  /** Blocks that differ have been logged. */
  ghost predicate OnlyLogged(disk: Disk, e: Disk, g: set<nat>) {
    |e| == |disk| && forall b {:trigger e[b]} :: 0 <= b < |disk| && e[b] != disk[b] ==> b in g
  }

  lemma OnlyLoggedTwice(disk: Disk, e: Disk, f: Disk, g: set<nat>, g': set<nat>)
    requires OnlyLogged(disk, e, g) && OnlyLogged(e, f, g') && g <= g'
    ensures OnlyLogged(disk, f, g')
  {
    forall b | 0 <= b < |disk| && f[b] != disk[b]
      ensures b in g'
    {
      assert e[b] != disk[b] || f[b] != e[b];
    }
  }

  ghost predicate LowestFree(use: map<nat, Use>, r: nat) {
    forall c {:trigger use[c]} :: c in use && c < r ==> use[c] != Free
  }

  lemma LowestByBit(l: Layout, disk: Disk, ino: map<nat, Inode>, use: map<nat, Use>, r: nat)
    requires Inv(l, disk, ino, use) && r < l.size && forall c :: 0 <= c < r ==> Used(l, disk, c)
    ensures LowestFree(use, r)
  {
    forall c | c in use && c < r
      ensures use[c] != Free
    {
      assert BlockOk(l, disk, use, c);
    }
  }

  lemma AllotsNone(l: Layout, use: map<nat, Use>, g: set<nat>)
    ensures Allots(l, use, use, g, g, {}, {})
  {
  }

  lemma AllotsOne(l: Layout, use: map<nat, Use>, g: set<nat>, r: nat, v: Use, also: set<nat>)
    requires r in use && use[r] == Free && v != Free && v != Held && LowestFree(use, r)
    ensures Allots(l, use, use[r := v], g, g + {BBlock(l, r), r} + also, {r}, also)
  {
    assert Bits(l, {r}) == {BBlock(l, r)};
  }

  lemma AllotsTwice(l: Layout, use: map<nat, Use>, use': map<nat, Use>, use'': map<nat, Use>, g: set<nat>, g': set<nat>,
                    g'': set<nat>, took: set<nat>, also: set<nat>, more: set<nat>, later: set<nat>)
    requires Allots(l, use, use', g, g', took, also) && Allots(l, use', use'', g', g'', more, later)
    ensures Allots(l, use, use'', g, g'', took + more, also + later)
  {
    forall b | b in use
      ensures use[b] == Free && use''[b] != Free <==> b in took + more
    {
      assert use'[b] == Free || use'[b] != Free;
    }
    forall b, c | b in took + more && c in use && c < b && use[c] == Free
      ensures c in took + more
    {
      assert use'[c] == Free || use'[c] != Free;
    }
    assert Bits(l, took + more) == Bits(l, took) + Bits(l, more);
  }
}
