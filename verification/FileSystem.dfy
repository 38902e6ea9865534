/** Block allocation and the contents of inodes. */
module FileSystem {
  import opened Params
  import opened DiskBytes
  import opened FileBlocks
  import FileContents

  /** The inodes of a new file system: the root directory has one block, the first data block. */
  function RootOnly(l: Layout): map<nat, Inode> {
    map i: nat | 1 <= i < l.ninodes :: FirstInode(l, i)
  }

  function FirstInode(l: Layout, i: nat): Inode {
    if i == ROOTINO then Inode(1, 1, BSIZE, [l.nmeta] + seq(NDIRECT, _ => 0))
        else Inode(0, 0, 0, seq(NDIRECT + 1, _ => 0))
  }

  function FirstUses(l: Layout): map<nat, Use> {
    map b: nat | 0 <= b < l.size :: FirstUse(l, b)
  }

  function FirstUse(l: Layout, b: nat): Use {
    if b < l.nmeta then Meta else if b == l.nmeta then Piece(ROOTINO, 0) else Free
  }

  /** The image that mkfs writes is a sound file system. */
  lemma FreshInv(l: Layout, disk: Disk, root: Block)
    requires LayoutOk(l) && l.nmeta < l.size && l.nmeta + 1 < BPB && l.ninodes > ROOTINO && |disk| == l.size
    requires forall b: nat {:trigger disk[b]} :: b < l.size ==>
               disk[b] == if b == l.nmeta then root else if b == l.bmapstart then FirstBits(l.nmeta + 1) else Zero()
    ensures Inv(l, disk, RootOnly(l), FirstUses(l)) && FileContents.Dense(disk, RootOnly(l))
  {
    var ino, use := RootOnly(l), FirstUses(l);
    forall b | 0 <= b < l.size
      ensures BlockOk(l, disk, use, b) && UseOk(disk, ino, use, b)
    {
      BBlockIsMeta(l, b);
      ZeroBits(b % BPB);
      FirstBitsAre(l.nmeta + 1, b % BPB);
    }
    forall i | i in ino
      ensures FileOk(disk, use, i, ino[i])
    {
      forall n | 0 <= n < MAXFILE
        ensures PieceOk(disk, use, i, ino[i], n)
      {
        assert Slot(disk, ino[i], n) == if i == ROOTINO && n == 0 then l.nmeta else 0;
      }
    }
  }

  class Fs {
    const l: Layout
    var disk: Disk                // as the buffer cache shows it
    var ino: map<nat, Inode>      // the in-memory inodes
    var dino: map<nat, Inode>     // the inodes on disk
    var logged: set<nat>          // the blocks passed to log_write in this transaction
    ghost var use: map<nat, Use>

    ghost predicate Valid()
      reads this
    {
      Inv(l, disk, ino, use)
    }

    ghost predicate Unchanged(d: Disk, i: map<nat, Inode>, u: map<nat, Use>, g: set<nat>)
      reads this
    {
      disk == d && ino == i && use == u && logged == g
    }

    // ---------- mkfs ----------

    /** A file system with nothing but the block of the root directory. */
    constructor (layout: Layout, root: Block)
      requires LayoutOk(layout) && layout.nmeta < layout.size && layout.nmeta + 1 < BPB && layout.ninodes > ROOTINO
      ensures Valid() && FileContents.Dense(disk, ino) && l == layout && disk[l.nmeta] == root
      ensures ino == dino == RootOnly(l) && logged == {}
      ensures Settled(use) && forall b :: 0 <= b < l.size ==> b in use && (use[b] == Free <==> b > l.nmeta)
    {
      var buf, i := Zero(), 0;
      while i < layout.nmeta + 1
        invariant i <= layout.nmeta + 1 && buf == FirstBits(i)
      {
        buf := PutBit(buf, i, true);
        i := i + 1;
      }
      l := layout;
      disk := seq(layout.size, b requires 0 <= b =>
        if b == layout.nmeta then root else if b == layout.bmapstart then buf else Zero());
      ino := RootOnly(layout);
      dino := RootOnly(layout);
      logged := {};
      use := FirstUses(layout);
      new;
      FreshInv(l, disk, root);
    }

    /** fsinit on a disk whose inodes are the given ones. */
    constructor Mount(layout: Layout, image: Disk, inodes: map<nat, Inode>, ghost uses: map<nat, Use>)
      requires Inv(layout, image, inodes, uses)
      ensures Valid() && l == layout && disk == image && ino == dino == inodes && use == uses && logged == {}
    {
      l := layout;
      disk, ino, dino, logged := image, inodes, inodes, {};
      use := uses;
    }

    // ---------- balloc and bfree ----------

    /** Marks block r in use and clears it. */
    method Claim(r: nat)
      requires Valid() && r < l.size && !Used(l, disk, r)
      modifies this`disk, this`logged, this`use
      ensures Valid() && r != 0 && r in old(use) && old(use)[r] == Free
      ensures disk == Mark(l, old(disk), r, true)[r := Zero()] && use == old(use)[r := Held]
      ensures logged == old(logged) + {BBlock(l, r), r}
    {
      assert BlockOk(l, disk, use, r) && BlockOk(l, disk, use, 0);
      MarkBlock(l, disk, ino, use, r, true);
      BBlockIsMeta(l, r);
      disk := disk[BBlock(l, r) := PutBit(disk[BBlock(l, r)], r % BPB, true)];
      use := use[r := Held];
      WriteBlock(l, disk, ino, use, r, Zero());
      disk := disk[r := Zero()];
      logged := logged + {BBlock(l, r), r};
    }

    /** The first free block, now held and zero, or 0. */
    method BAlloc() returns (r: nat)
      requires Valid()
      modifies this`disk, this`logged, this`use
      ensures Valid()
      ensures r == 0 ==> disk == old(disk) && logged == old(logged) && use == old(use)
      ensures r == 0 ==> Full(l, disk)
      ensures r != 0 ==>
                r < l.size && r in old(use) && old(use)[r] == Free && forall c :: 0 <= c < r ==> Used(l, old(disk), c)
      ensures r != 0 ==> disk == Mark(l, old(disk), r, true)[r := Zero()] && use == old(use)[r := Held]
      ensures r != 0 ==> logged == old(logged) + {BBlock(l, r), r}
    {
      var b := 0;
      while b < l.size
        invariant b % BPB == 0 && Valid()
        invariant forall c :: 0 <= c < b && c < l.size ==> Used(l, disk, c)
        invariant disk == old(disk) && logged == old(logged) && use == old(use)
      {
        BBlockIsMeta(l, b);
        var bp := disk[BBlock(l, b)];
        var bi := 0;
        while bi < BPB && b + bi < l.size
          invariant bi <= BPB && disk == old(disk) && logged == old(logged) && use == old(use)
          invariant forall c :: 0 <= c < b + bi && c < l.size ==> Used(l, disk, c)
        {
          InBitmapBlock(l, b, bi);
          if !Bit(bp, bi) {
            r := b + bi;
            Claim(r);
            return;
          }
          assert Used(l, disk, b + bi);
          bi := bi + 1;
        }
        b := b + BPB;
      }
      r := 0;
    }

    /** view is the inodes without the entry that still names b. The block's bit is set: "freeing free
        block" cannot happen. */
    method BFree(b: nat, ghost view: map<nat, Inode>)
      requires Inv(l, disk, view, use) && b in use && use[b] == Held
      modifies this`disk, this`logged, this`use
      ensures Inv(l, disk, view, use) && b < l.size && disk == Mark(l, old(disk), b, false)
      ensures use == old(use)[b := Free]
      ensures logged == old(logged) + {BBlock(l, b)} && OnlyLogged(old(disk), disk, logged)
    {
      MarkBlock(l, disk, view, use, b, false);
      BBlockIsMeta(l, b);
      assert BlockOk(l, disk, use, b);
      var bp := disk[BBlock(l, b)];
      assert Bit(bp, b % BPB);  // not a free block
      disk := disk[BBlock(l, b) := PutBit(bp, b % BPB, false)];
      logged := logged + {BBlock(l, b)};
      use := use[b := Free];
    }

    // ---------- bmap ----------

    /** balloc, and what it means for the files. */
    method Take() returns (r: nat)
      requires Valid()
      modifies this`disk, this`logged, this`use
      ensures Valid() && Kept(old(disk), ino, old(use), disk, ino, use) && SameTables(old(disk), disk, old(use))
      ensures r == 0 ==> disk == old(disk) && use == old(use) && logged == old(logged) && Full(l, disk)
      ensures r != 0 ==>
                r in use && r < |disk| && old(use)[r] == Free && use == old(use)[r := Held] && disk[r] == Zero()
      ensures r != 0 ==> logged == old(logged) + {BBlock(l, r), r} && LowestFree(old(use), r)
      ensures OnlyLogged(old(disk), disk, logged)
    {
      r := BAlloc();
      if r != 0 {
        TakenKeeps(l, old(disk), ino, old(use), r);
        LowestByBit(l, old(disk), ino, old(use), r);
      }
    }

    /** bmap for a direct block. */
    method BMapDirect(i: nat, bn: nat) returns (addr: nat, ghost took: set<nat>)
      requires Valid() && i in ino && |ino[i].addrs| == NDIRECT + 1 && bn < NDIRECT
      modifies this`disk, this`logged, this`use, this`ino
      ensures Valid() && Located(old(disk), old(ino), old(use), disk, ino, use, i, bn, addr)
      ensures addr == 0 ==> Full(l, disk)
      ensures |ino[i].addrs| == NDIRECT + 1 && ino[i].addrs[NDIRECT] == old(ino)[i].addrs[NDIRECT]
      ensures Allots(l, old(use), use, old(logged), logged, took, {})
      ensures took == if Slot(old(disk), old(ino)[i], bn) == 0 then {addr} - {0} else {}
      ensures Slot(old(disk), old(ino)[i], bn) != 0 ==> Unchanged(old(disk), old(ino), old(use), old(logged))
      ensures OnlyLogged(old(disk), disk, logged)
    {
      took := {};
      NothingLocated(l, disk, ino, use, i, bn);
      AllotsNone(l, use, logged);
      addr := ino[i].addrs[bn];
      if addr == 0 {
        ghost var d0, u0, g0 := disk, use, logged;
        addr := Take();
        if addr == 0 {
          return;
        }
        SetDirect(l, disk, ino, use, i, bn, addr);
        Placed(l, d0, ino, u0, disk, use, disk, WithAddr(ino, i, bn, addr), i, bn, addr);
        AllotsOne(l, u0, g0, addr, Piece(i, bn), {});
        ino := WithAddr(ino, i, bn, addr);
        use := u0[addr := Piece(i, bn)];
        took := {addr};
      }
    }

    /** bmap's indirect block, made if there is none. */
    method TableFor(i: nat, ghost bn: nat) returns (t: nat, ghost took: set<nat>)
      requires Valid() && i in ino && |ino[i].addrs| == NDIRECT + 1 && NDIRECT <= bn < MAXFILE
      modifies this`disk, this`logged, this`use, this`ino
      ensures Valid() && i in ino && |ino[i].addrs| == NDIRECT + 1 && t == ino[i].addrs[NDIRECT] && t < l.size
      ensures Located(old(disk), old(ino), old(use), disk, ino, use, i, bn, Slot(old(disk), old(ino)[i], bn))
      ensures Slot(disk, ino[i], bn) == Slot(old(disk), old(ino)[i], bn)
      ensures t == 0 ==> Slot(disk, ino[i], bn) == 0 && Full(l, disk)
      ensures Allots(l, old(use), use, old(logged), logged, took, {})
      ensures took == {t} - {old(ino)[i].addrs[NDIRECT]} - {0}
      ensures Slot(old(disk), old(ino)[i], bn) != 0 ==> Unchanged(old(disk), old(ino), old(use), old(logged))
      ensures OnlyLogged(old(disk), disk, logged)
    {
      took := {};
      NothingLocated(l, disk, ino, use, i, bn);
      AllotsNone(l, use, logged);
      assert FileOk(disk, use, i, ino[i]);
      t := ino[i].addrs[NDIRECT];
      if t == 0 {
        ghost var d0, u0, g0 := disk, use, logged;
        t := Take();
        if t == 0 {
          return;
        }
        AddTable(l, disk, ino, use, i, t);
        TablePlaced(l, d0, ino, u0, disk, use, i, bn, t);
        AllotsOne(l, u0, g0, t, Table(i), {});
        assert use[t := Table(i)] == u0[t := Table(i)];
        ino := WithAddr(ino, i, NDIRECT, t);
        use := use[t := Table(i)];
        took := {t};
      }
    }

    /** Allocates block bn and enters it in the indirect block. */
    method FillIndirect(i: nat, bn: nat, t: nat) returns (addr: nat)
      requires Valid() && i in ino && |ino[i].addrs| == NDIRECT + 1 && NDIRECT <= bn < MAXFILE
      requires t == ino[i].addrs[NDIRECT] && t != 0 && Slot(disk, ino[i], bn) == 0
      modifies this`disk, this`logged, this`use
      ensures Valid() && Located(old(disk), ino, old(use), disk, ino, use, i, bn, addr)
      ensures addr == 0 ==> Full(l, disk)
      ensures Allots(l, old(use), use, old(logged), logged, {addr} - {0}, if addr == 0 then {} else {t})
      ensures OnlyLogged(old(disk), disk, logged)
    {
      NothingLocated(l, disk, ino, use, i, bn);
      AllotsNone(l, use, logged);
      ghost var d0, u0, g0 := disk, use, logged;
      addr := Take();
      if addr != 0 {
        FilledIn(l, d0, ino, u0, g0, disk, use, i, bn, t, addr);
        disk := disk[t := PutWord(disk[t], bn - NDIRECT, addr)];
        logged := logged + {t};
        use := u0[addr := Piece(i, bn)];
      }
    }

    /** bmap for a block reached through the indirect block. */
    method BMapIndirect(i: nat, bn: nat) returns (addr: nat, ghost took: set<nat>)
      requires Valid() && i in ino && |ino[i].addrs| == NDIRECT + 1 && NDIRECT <= bn < MAXFILE
      modifies this`disk, this`logged, this`use, this`ino
      ensures Valid() && Located(old(disk), old(ino), old(use), disk, ino, use, i, bn, addr)
      ensures addr == 0 ==> Full(l, disk)
      ensures |ino[i].addrs| == NDIRECT + 1
      ensures Slot(old(disk), old(ino)[i], bn) != 0 ==> Unchanged(old(disk), old(ino), old(use), old(logged))
      ensures OnlyLogged(old(disk), disk, logged)
      ensures took == Fresh(old(disk), old(ino)[i], ino[i], bn, addr)
      ensures Allots(l, old(use), use, old(logged), logged, took, Entered(old(disk), old(ino)[i], ino[i], bn, addr))
    {
      ghost var d0, i0, u0, g0 := disk, ino, use, logged;
      var t;
      t, took := TableFor(i, bn);
      if t == 0 {
        return 0, took;
      }
      addr := Word(disk[t], bn - NDIRECT);
      if addr == 0 {
        ghost var d1, u1, g1 := disk, use, logged;
        addr := FillIndirect(i, bn, t);
        LocatedTwice(d0, i0, u0, d1, ino, u1, disk, ino, use, i, bn, addr);
        AllotsTwice(l, u0, u1, use, g0, g1, logged, took, {}, {addr} - {0}, if addr == 0 then {} else {t});
        OnlyLoggedTwice(d0, d1, disk, g1, logged);
        FreshIndirect(d0, i0[i], ino[i], bn, addr);
        took := took + ({addr} - {0});
      }
    }

    /** The disk block of block bn of file i, allocated if need be; 0 when the disk is full. took is what was
        allocated. */
    method BMap(i: nat, bn: nat) returns (addr: nat, ghost took: set<nat>)
      requires Valid() && i in ino && |ino[i].addrs| == NDIRECT + 1 && bn < MAXFILE
      modifies this`disk, this`logged, this`use, this`ino
      ensures Valid() && Located(old(disk), old(ino), old(use), disk, ino, use, i, bn, addr)
      ensures addr == 0 ==> Full(l, disk)
      ensures |ino[i].addrs| == NDIRECT + 1
      ensures Slot(old(disk), old(ino)[i], bn) != 0 ==> Unchanged(old(disk), old(ino), old(use), old(logged))
      ensures OnlyLogged(old(disk), disk, logged)
      ensures took == Fresh(old(disk), old(ino)[i], ino[i], bn, addr)
      ensures Allots(l, old(use), use, old(logged), logged, took, Entered(old(disk), old(ino)[i], ino[i], bn, addr))
      ensures ino[i].addrs[NDIRECT] != old(ino)[i].addrs[NDIRECT] ==>
                bn >= NDIRECT && Slot(old(disk), old(ino)[i], bn) == 0
    {
      if bn < NDIRECT {
        addr, took := BMapDirect(i, bn);
      } else {
        addr, took := BMapIndirect(i, bn);
      }
    }

    // ---------- itrunc and iput ----------

    method IUpdate(i: nat)
      requires i in ino
      modifies this`dino, this`logged
      ensures dino == old(dino)[i := ino[i]] && logged == old(logged) + {IBlock(l, i)}
    {
      dino := dino[i := ino[i]];
      logged := logged + {IBlock(l, i)};
    }

    /** itrunc's first loop. */
    method FreeDirect(i: nat)
      requires Valid() && i in ino && |ino[i].addrs| == NDIRECT + 1
      modifies this`disk, this`logged, this`use, this`ino
      ensures Valid() && OnlyBitmap(l, old(disk), disk) && Frees(l, old(use), use, old(logged), logged)
      ensures use == Dropped(old(use), i, NDIRECT) && OnlyLogged(old(disk), disk, logged)
      ensures i in ino && ino == old(ino)[i := ino[i]] && ino[i] == old(ino)[i].(addrs := ino[i].addrs)
      ensures |ino[i].addrs| == NDIRECT + 1 && ino[i].addrs[NDIRECT] == old(ino)[i].addrs[NDIRECT]
      ensures forall k :: 0 <= k < NDIRECT ==> ino[i].addrs[k] == 0
    {
      var n := 0;
      DroppedNothing(l, disk, ino, use, i);
      FreesNone(l, use, use, logged);
      while n < NDIRECT
        invariant n <= NDIRECT && i in ino && |ino[i].addrs| == NDIRECT + 1
        invariant Valid() && OnlyBitmap(l, old(disk), disk) && Frees(l, old(use), use, old(logged), logged)
        invariant use == Dropped(old(use), i, n) && OnlyLogged(old(disk), disk, logged)
        invariant ino == old(ino)[i := ino[i]] && ino[i] == old(ino)[i].(addrs := ino[i].addrs)
        invariant forall k :: 0 <= k < n ==> ino[i].addrs[k] == 0
        invariant forall k :: n <= k <= NDIRECT ==> ino[i].addrs[k] == old(ino)[i].addrs[k]
      {
        ghost var d, g := disk, logged;
        FreeOneDirect(i, n, old(use), old(logged));
        OnlyLoggedTwice(old(disk), d, disk, g, logged);
        n := n + 1;
      }
    }

    method FreeOneDirect(i: nat, n: nat, ghost use0: map<nat, Use>, ghost g0: set<nat>)
      requires Valid() && i in ino && |ino[i].addrs| == NDIRECT + 1 && n < NDIRECT && use == Dropped(use0, i, n)
      requires Frees(l, use0, use, g0, logged)
      modifies this`disk, this`logged, this`use, this`ino
      ensures Valid() && OnlyBitmap(l, old(disk), disk) && Frees(l, use0, use, g0, logged)
      ensures use == Dropped(use0, i, n + 1) && ino == WithAddr(old(ino), i, n, 0)
      ensures OnlyLogged(old(disk), disk, logged) && old(logged) <= logged
    {
      if ino[i].addrs[n] != 0 {
        ClearDirect(l, disk, ino, use, i, n);
        DroppedOne(l, disk, ino, use, use0, i, n);
        FreesAlso(l, use0, use, ino[i].addrs[n], g0, logged);
        use := use[ino[i].addrs[n] := Held];
        BFree(ino[i].addrs[n], WithAddr(ino, i, n, 0));
        ino := WithAddr(ino, i, n, 0);
      } else {
        DroppedMissing(l, disk, ino, use, use0, i, n);
        assert ino[i].addrs[n := 0] == ino[i].addrs;
      }
    }

    /** itrunc's second loop, over the block numbers a of the indirect block. */
    method FreeEntries(i: nat, a: Block, ghost view: map<nat, Inode>, ghost use0: map<nat, Use>, ghost g0: set<nat>)
      requires Inv(l, disk, view, use) && use == Peeled(use0, i, 0) && use0.Keys == use.Keys
      requires Entries(a, use0, i) && Frees(l, use0, use, g0, logged)
      modifies this`disk, this`logged, this`use
      ensures Inv(l, disk, view, use) && OnlyBitmap(l, old(disk), disk) && Frees(l, use0, use, g0, logged)
      ensures use == Peeled(use0, i, NINDIRECT)
      ensures OnlyLogged(old(disk), disk, logged) && old(logged) <= logged
    {
      var j := 0;
      while j < NINDIRECT
        invariant j <= NINDIRECT && Inv(l, disk, view, use) && use == Peeled(use0, i, j)
        invariant OnlyBitmap(l, old(disk), disk) && Frees(l, use0, use, g0, logged)
        invariant OnlyLogged(old(disk), disk, logged) && old(logged) <= logged
      {
        assert EntryIs(a, use0, i, j);
        PeelOne(a, use0, i, j);
        if Word(a, j) != 0 {
          assert UseOk(disk, view, use, Word(a, j));
          FreesAlso(l, use0, use, Word(a, j), g0, logged);
          ghost var d, g := disk, logged;
          BFree(Word(a, j), view);
          OnlyLoggedTwice(old(disk), d, disk, g, logged);
        }
        j := j + 1;
      }
    }

    /** Frees the blocks reached through the indirect block, and that block. */
    method FreeIndirect(i: nat)
      requires Valid() && i in ino && |ino[i].addrs| == NDIRECT + 1
      modifies this`disk, this`logged, this`use, this`ino
      ensures Valid() && OnlyBitmap(l, old(disk), disk) && Frees(l, old(use), use, old(logged), logged)
      ensures use == Peeled(old(use), i, NINDIRECT + 1) && ino == WithAddr(old(ino), i, NDIRECT, 0)
      ensures OnlyLogged(old(disk), disk, logged) && old(logged) <= logged
    {
      if ino[i].addrs[NDIRECT] != 0 {
        var t := ino[i].addrs[NDIRECT];
        ghost var view, use0 := WithAddr(ino, i, NDIRECT, 0), use;
        Detach(l, disk, ino, use, i);
        StartPeeling(l, disk, ino, use, i);
        use := Peeled(use, i, 0);
        ghost var g0 := logged;
        FreesNone(l, use0, use, g0);
        FreeEntries(i, disk[t], view, use0, g0);
        PeelTable(l, disk, use0, i, t);
        FreesAlso(l, use0, use, t, g0, logged);
        ghost var d, g := disk, logged;
        BFree(t, view);
        OnlyLoggedTwice(old(disk), d, disk, g, logged);
        ino := WithAddr(ino, i, NDIRECT, 0);
      } else {
        NothingToPeel(l, disk, ino, use, i);
        FreesNone(l, use, use, logged);
        assert ino[i].addrs[NDIRECT := 0] == ino[i].addrs;
      }
    }

    /** Frees all blocks of file i; no other file is touched. */
    method ITrunc(i: nat)
      requires Valid() && i in ino && |ino[i].addrs| == NDIRECT + 1
      modifies this
      ensures Valid() && OnlyBitmap(l, old(disk), disk) && OnlyLogged(old(disk), disk, logged)
      ensures logged == old(logged) + Bits(l, BlocksOf(old(use), i)) + {IBlock(l, i)}
      ensures use == Emptied(old(use), i) && SameHeld(old(use), use)
      ensures ino == old(ino)[i := old(ino)[i].(size := 0, addrs := NoAddrs())] && dino == old(dino)[i := ino[i]]
    {
      ghost var u0, g0 := use, logged;
      PiecesFit(l, disk, ino, use, i);
      FreeDirect(i);
      ghost var u1, g1 := use, logged;
      ghost var d1 := disk;
      FreeIndirect(i);
      OnlyLoggedTwice(old(disk), d1, disk, g1, logged);
      FreesFile(l, u0, u1, use, g0, g1, logged, i);
      FieldsAreFree(l, disk, ino, use, i, ino[i].(size := 0));
      ino := ino[i := ino[i].(size := 0)];
      IUpdate(i);
      assert ino[i].addrs == NoAddrs();
    }

    /** iput; last says that this is the only reference. */
    method IPut(i: nat, last: bool)
      requires Valid() && i in ino && |ino[i].addrs| == NDIRECT + 1
      modifies this
      ensures Valid() && SameHeld(old(use), use) && OnlyBitmap(l, old(disk), disk)
      ensures OnlyLogged(old(disk), disk, logged)
      ensures if last && old(ino)[i].nlink == 0 then
                && use == Emptied(old(use), i) && ino == old(ino)[i := Inode(0, 0, 0, NoAddrs())]
                && dino == old(dino)[i := ino[i]]
                && logged == old(logged) + Bits(l, BlocksOf(old(use), i)) + {IBlock(l, i)}
              else
                Unchanged(old(disk), old(ino), old(use), old(logged)) && dino == old(dino)
    {
      if last && ino[i].nlink == 0 {
        ITrunc(i);
        FieldsAreFree(l, disk, ino, use, i, ino[i].(kind := 0));
        ino := ino[i := ino[i].(kind := 0)];
        IUpdate(i);
      }
    }
  }

  lemma InBitmapBlock(l: Layout, b: nat, bi: nat)
    requires b % BPB == 0 && bi < BPB
    ensures BBlock(l, b + bi) == BBlock(l, b) && (b + bi) % BPB == bi
  {
  }

  lemma TakenKeeps(l: Layout, disk: Disk, ino: map<nat, Inode>, use: map<nat, Use>, r: nat)
    requires Inv(l, disk, ino, use) && r in use && r < l.size && use[r] == Free
    ensures var e := Mark(l, disk, r, true)[r := Zero()];
            Kept(disk, ino, use, e, ino, use[r := Held]) && SameTables(disk, e, use)
  {
    BBlockIsMeta(l, r);
    assert BlockOk(l, disk, use, BBlock(l, r));
  }

  /** A block that has been taken is entered in the indirect block. */
  lemma FilledIn(l: Layout, disk: Disk, ino: map<nat, Inode>, use: map<nat, Use>, g: set<nat>, d: Disk,
                 held: map<nat, Use>, i: nat, bn: nat, t: nat, b: nat)
    requires Inv(l, disk, ino, use) && Inv(l, d, ino, held) && Kept(disk, ino, use, d, ino, held)
    requires SameTables(disk, d, use) && i in ino && |ino[i].addrs| == NDIRECT + 1 && NDIRECT <= bn < MAXFILE
    requires t == ino[i].addrs[NDIRECT] != 0 && Slot(disk, ino[i], bn) == 0
    requires b != 0 && b in use && b < |d| && use[b] == Free && held == use[b := Held] && d[b] == Zero()
    requires LowestFree(use, b)
    ensures t < |d| && b < 0x1_0000_0000
    ensures var e := d[t := PutWord(d[t], bn - NDIRECT, b)];
            Inv(l, e, ino, use[b := Piece(i, bn)]) && Located(disk, ino, use, e, ino, use[b := Piece(i, bn)], i, bn, b)
    ensures Allots(l, use, use[b := Piece(i, bn)], g, g + {BBlock(l, b), b} + {t}, {b}, {t})
  {
    assert FileOk(d, held, i, ino[i]) && FileOk(disk, use, i, ino[i]);
    SlotsKept(disk, d, use, i, ino[i]);
    SetIndirect(l, d, ino, held, i, bn, b);
    Placed(l, disk, ino, use, d, held, d[t := PutWord(d[t], bn - NDIRECT, b)], ino, i, bn, b);
    AllotsOne(l, use, g, b, Piece(i, bn), {t});
  }

  lemma TablePlaced(l: Layout, disk: Disk, ino: map<nat, Inode>, use: map<nat, Use>, d: Disk, held: map<nat, Use>,
                    i: nat, n: nat, t: nat)
    requires Inv(l, disk, ino, use) && Kept(disk, ino, use, d, ino, held) && SameTables(disk, d, use)
    requires i in ino && NDIRECT <= n < MAXFILE && |ino[i].addrs| == NDIRECT + 1 && ino[i].addrs[NDIRECT] == 0
    requires t in use && use[t] == Free && held == use[t := Held]
    requires SlotsAre(d, ino[i], d, WithAddr(ino, i, NDIRECT, t)[i], MAXFILE, 0)
    ensures Located(disk, ino, use, d, WithAddr(ino, i, NDIRECT, t), held[t := Table(i)], i, n, 0)
  {
    var now := WithAddr(ino, i, NDIRECT, t);
    forall j | j in ino
      ensures SlotsAre(disk, ino[j], d, now[j], if j == i then n else MAXFILE, 0)
    {
      assert FileOk(disk, use, j, ino[j]);
      SlotsKept(disk, d, use, j, ino[j]);
      forall k | 0 <= k < MAXFILE
        ensures Slot(d, now[j], k) == Slot(disk, ino[j], k)
      {
      }
    }
  }

  // ---------- freeing the blocks of a file ----------

  /** Only bitmap blocks differ. */
  ghost predicate OnlyBitmap(l: Layout, disk: Disk, e: Disk) {
    |e| == |disk| && forall b {:trigger e[b]} :: l.nmeta <= b < |disk| ==> e[b] == disk[b]
  }

  /** The first n blocks of file i are free. */
  function Dropped(use: map<nat, Use>, i: nat, n: nat): map<nat, Use> {
    map b | b in use :: if use[b].Piece? && use[b].inum == i && use[b].n < n then Free else use[b]
  }

  lemma DroppedNothing(l: Layout, disk: Disk, ino: map<nat, Inode>, use: map<nat, Use>, i: nat)
    ensures Dropped(use, i, 0) == use
  {
  }

  lemma ClearDirect(l: Layout, disk: Disk, ino: map<nat, Inode>, use: map<nat, Use>, i: nat, n: nat)
    requires Inv(l, disk, ino, use) && i in ino && |ino[i].addrs| == NDIRECT + 1 && n < NDIRECT && ino[i].addrs[n] != 0
    ensures var b := ino[i].addrs[n];
            && b in use && use[b] == Piece(i, n) && b < l.size && l.nmeta <= b
            && Inv(l, disk, WithAddr(ino, i, n, 0), use[b := Held])
  {
    var b := ino[i].addrs[n];
    assert FileOk(disk, use, i, ino[i]) && PieceOk(disk, use, i, ino[i], n);
    assert BlockOk(l, disk, use, b);
    SetDirect(l, disk, ino, use, i, n, 0);
    Rewire(l, disk, ino, use, disk, WithAddr(ino, i, n, 0), use[b := Held], i, n, 0);
  }

  lemma DroppedOne(l: Layout, disk: Disk, ino: map<nat, Inode>, use: map<nat, Use>, use0: map<nat, Use>, i: nat, n: nat)
    requires Inv(l, disk, ino, use) && i in ino && |ino[i].addrs| == NDIRECT + 1 && n < MAXFILE
    requires use == Dropped(use0, i, n)
    requires var b := Slot(disk, ino[i], n); b != 0 && b in use && use[b] == Piece(i, n)
    ensures var b := Slot(disk, ino[i], n); use[b := Held][b := Free] == Dropped(use0, i, n + 1)
  {
    var b := Slot(disk, ino[i], n);
    forall c | c in use
      ensures use[b := Free][c] == Dropped(use0, i, n + 1)[c]
    {
      assert UseOk(disk, ino, use, c);
    }
  }

  lemma DroppedMissing(l: Layout, disk: Disk, ino: map<nat, Inode>, use: map<nat, Use>, use0: map<nat, Use>, i: nat,
                       n: nat)
    requires Inv(l, disk, ino, use) && i in ino && |ino[i].addrs| == NDIRECT + 1 && n < MAXFILE
    requires use == Dropped(use0, i, n)
    requires Slot(disk, ino[i], n) == 0
    ensures use == Dropped(use0, i, n + 1)
  {
    forall c | c in use
      ensures use[c] == Dropped(use0, i, n + 1)[c]
    {
      assert UseOk(disk, ino, use, c);
    }
  }

  // ---------- what freeing costs ----------

  /** The blocks of file i. */
  function BlocksOf(use: map<nat, Use>, i: nat): set<nat> {
    set b | b in use && (use[b].Piece? || use[b].Table?) && use[b].inum == i
  }

  function Freed(use: map<nat, Use>, use': map<nat, Use>): set<nat> {
    set b | b in use && b in use' && use[b] != Free && use'[b] == Free
  }

  /** Blocks have been freed, and their bitmap blocks logged. */
  ghost predicate Frees(l: Layout, use: map<nat, Use>, use': map<nat, Use>, g: set<nat>, g': set<nat>) {
    && use'.Keys == use.Keys && (forall b {:trigger use'[b]} :: b in use && use[b] == Free ==> use'[b] == Free)
    && g' == g + Bits(l, Freed(use, use'))
  }

  lemma FreesNone(l: Layout, use: map<nat, Use>, use': map<nat, Use>, g: set<nat>)
    requires use'.Keys == use.Keys && forall b {:trigger use'[b]} :: b in use ==> (use[b] == Free <==> use'[b] == Free)
    ensures Frees(l, use, use', g, g)
  {
    assert Freed(use, use') == {};
  }

  lemma FreesAlso(l: Layout, use0: map<nat, Use>, use: map<nat, Use>, b: nat, g0: set<nat>, g: set<nat>)
    requires Frees(l, use0, use, g0, g) && b in use && use[b] != Free
    ensures Frees(l, use0, use[b := Free], g0, g + {BBlock(l, b)})
  {
    assert Freed(use0, use[b := Free]) == Freed(use0, use) + {b};
    assert Bits(l, Freed(use0, use) + {b}) == Bits(l, Freed(use0, use)) + {BBlock(l, b)};
  }

  lemma FreesMore(l: Layout, use: map<nat, Use>, use': map<nat, Use>, use'': map<nat, Use>, g: set<nat>, g': set<nat>,
                  g'': set<nat>)
    requires Frees(l, use, use', g, g') && Frees(l, use', use'', g', g'')
    ensures Frees(l, use, use'', g, g'')
  {
    assert Freed(use, use'') == Freed(use, use') + Freed(use', use'') by {
      assert forall b :: b in use ==> use'[b] == Free || use'[b] != Free;
    }
    assert Bits(l, Freed(use, use'')) == Bits(l, Freed(use, use')) + Bits(l, Freed(use', use''));
  }

  function NoAddrs(): (s: seq<nat>)
    ensures |s| == NDIRECT + 1 && forall k :: 0 <= k <= NDIRECT ==> s[k] == 0
  {
    seq(NDIRECT + 1, _ => 0)
  }

  /** What itrunc leaves: every block of file i free, every other block as it was. */
  function Emptied(use: map<nat, Use>, i: nat): map<nat, Use> {
    map b | b in use :: if (use[b].Piece? || use[b].Table?) && use[b].inum == i then Free else use[b]
  }

  /** The blocks reached through the indirect block of file i and that block are held, the first j of
      them free already; the indirect block is free when j is NINDIRECT + 1. */
  function Peeled(use: map<nat, Use>, i: nat, j: nat): map<nat, Use> {
    map b | b in use ::
      if use[b].Piece? && use[b].inum == i && use[b].n >= NDIRECT then (if use[b].n < NDIRECT + j then Free else Held)
      else if use[b] == Table(i) then (if j > NINDIRECT then Free else Held)
      else use[b]
  }

  ghost predicate EntryIs(a: Block, use: map<nat, Use>, i: nat, j: nat) {
    && j < NINDIRECT
    && (Word(a, j) != 0 ==> Word(a, j) in use && use[Word(a, j)] == Piece(i, NDIRECT + j))
    && (forall b :: b in use && use[b] == Piece(i, NDIRECT + j) ==> b == Word(a, j) && b != 0)
  }

  ghost predicate Entries(a: Block, use: map<nat, Use>, i: nat) {
    && (forall j {:trigger EntryIs(a, use, i, j)} :: 0 <= j < NINDIRECT ==> EntryIs(a, use, i, j))
    && (forall b :: b in use && use[b].Piece? && use[b].inum == i ==> use[b].n < MAXFILE)
  }

  lemma PeelOne(a: Block, use: map<nat, Use>, i: nat, j: nat)
    requires EntryIs(a, use, i, j)
    ensures Word(a, j) == 0 ==> Peeled(use, i, j + 1) == Peeled(use, i, j)
    ensures Word(a, j) != 0 ==> Word(a, j) in Peeled(use, i, j) && Peeled(use, i, j)[Word(a, j)] == Held
    ensures Word(a, j) != 0 ==> Peeled(use, i, j + 1) == Peeled(use, i, j)[Word(a, j) := Free]
  {
    forall b | b in use
      ensures Peeled(use, i, j + 1)[b] == if b == Word(a, j) && b != 0 then Free else Peeled(use, i, j)[b]
    {
    }
  }

  lemma StartPeeling(l: Layout, disk: Disk, ino: map<nat, Inode>, use: map<nat, Use>, i: nat)
    requires Inv(l, disk, ino, use) && i in ino && |ino[i].addrs| == NDIRECT + 1 && ino[i].addrs[NDIRECT] != 0
    ensures Detached(use, i) == Peeled(use, i, 0)
    ensures var t := ino[i].addrs[NDIRECT]; t < l.size && t in use && use[t] == Table(i) && Entries(disk[t], use, i)
    ensures forall b :: b in use && use[b] == Table(i) ==> b == ino[i].addrs[NDIRECT]
  {
    var t := ino[i].addrs[NDIRECT];
    assert FileOk(disk, use, i, ino[i]) && BlockOk(l, disk, use, t);
    forall j | 0 <= j < NINDIRECT
      ensures EntryIs(disk[t], use, i, j)
    {
      assert PieceOk(disk, use, i, ino[i], NDIRECT + j);
      forall b | b in use && use[b] == Piece(i, NDIRECT + j)
        ensures b == Word(disk[t], j) && b != 0
      {
        assert UseOk(disk, ino, use, b);
      }
    }
    PiecesFit(l, disk, ino, use, i);
    forall b | b in use && use[b] == Table(i)
      ensures b == t
    {
      assert UseOk(disk, ino, use, b);
    }
  }

  lemma PiecesFit(l: Layout, disk: Disk, ino: map<nat, Inode>, use: map<nat, Use>, i: nat)
    requires Inv(l, disk, ino, use)
    ensures forall b :: b in use && use[b].Piece? && use[b].inum == i ==> use[b].n < MAXFILE
  {
    forall b | b in use && use[b].Piece? && use[b].inum == i
      ensures use[b].n < MAXFILE
    {
      assert UseOk(disk, ino, use, b);
    }
  }

  lemma PeelTable(l: Layout, disk: Disk, use: map<nat, Use>, i: nat, t: nat)
    requires t in use && use[t] == Table(i) && forall b :: b in use && use[b] == Table(i) ==> b == t
    requires forall b :: b in use && use[b].Piece? && use[b].inum == i ==> use[b].n < MAXFILE
    ensures Peeled(use, i, NINDIRECT)[t := Free] == Peeled(use, i, NINDIRECT + 1)
  {
  }

  lemma NothingToPeel(l: Layout, disk: Disk, ino: map<nat, Inode>, use: map<nat, Use>, i: nat)
    requires Inv(l, disk, ino, use) && i in ino && |ino[i].addrs| == NDIRECT + 1 && ino[i].addrs[NDIRECT] == 0
    ensures Peeled(use, i, NINDIRECT + 1) == use
  {
    forall b | b in use
      ensures Peeled(use, i, NINDIRECT + 1)[b] == use[b]
    {
      assert UseOk(disk, ino, use, b);
    }
  }

  lemma FreesFile(l: Layout, use: map<nat, Use>, use': map<nat, Use>, use'': map<nat, Use>, g: set<nat>, g': set<nat>,
                  g'': set<nat>, i: nat)
    requires Frees(l, use, use', g, g') && Frees(l, use', use'', g', g'')
    requires use' == Dropped(use, i, NDIRECT) && use'' == Peeled(use', i, NINDIRECT + 1)
    requires forall b :: b in use && use[b].Piece? && use[b].inum == i ==> use[b].n < MAXFILE
    ensures use'' == Emptied(use, i) && SameHeld(use, use'') && g'' == g + Bits(l, BlocksOf(use, i))
  {
    FreesMore(l, use, use', use'', g, g', g'');
    DroppedThenPeeled(use, i);
    assert Freed(use, use'') == BlocksOf(use, i);
  }

  lemma DroppedThenPeeled(use: map<nat, Use>, i: nat)
    requires forall b :: b in use && use[b].Piece? && use[b].inum == i ==> use[b].n < MAXFILE
    ensures Peeled(Dropped(use, i, NDIRECT), i, NINDIRECT + 1) == Emptied(use, i)
  {
  }

  lemma FieldsAreFree(l: Layout, disk: Disk, ino: map<nat, Inode>, use: map<nat, Use>, i: nat, x: Inode)
    requires Inv(l, disk, ino, use) && i in ino && x.addrs == ino[i].addrs
    ensures Inv(l, disk, ino[i := x], use)
  {
    var now := ino[i := x];
    forall j | j in now
      ensures FileOk(disk, use, j, now[j])
    {
      assert FileOk(disk, use, j, ino[j]);
      forall k | 0 <= k < MAXFILE
        ensures PieceOk(disk, use, j, now[j], k)
      {
        assert PieceOk(disk, use, j, ino[j], k);
      }
    }
    forall b | b in use
      ensures UseOk(disk, now, use, b)
    {
      assert UseOk(disk, ino, use, b);
    }
  }
}
