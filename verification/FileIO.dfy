/** Reading and writing files at any offset. */
module FileIO {
  import opened Basics
  import opened Params
  import opened DiskBytes
  import opened FileBlocks
  import opened FileContents
  import opened FileSystem
  import opened WriteCosts
  import opened WriteRoom

  lemma SliceMore<T>(c: seq<T>, a: nat, b: nat, m: nat)
    requires a <= b <= b + m <= |c|
    ensures c[a..b] + c[b..b + m] == c[a..b + m]
  {
  }

  lemma HasSlot(fs: Fs, i: nat, off: nat)
    requires fs.Valid() && i in fs.ino && NoHoles(fs.disk, fs.ino[i]) && off < fs.ino[i].size
    ensures off / BSIZE < MAXFILE && Slot(fs.disk, fs.ino[i], off / BSIZE) != 0
  {
    assert off / BSIZE * BSIZE <= off;
  }

  lemma SliceOfBlock(l: Layout, disk: Disk, ino: map<nat, Inode>, use: map<nat, Use>, i: nat, off: nat, m: nat)
    requires Inv(l, disk, ino, use) && i in ino && |ino[i].addrs| == NDIRECT + 1 && off / BSIZE < MAXFILE
    requires Slot(disk, ino[i], off / BSIZE) != 0 && off % BSIZE + m <= BSIZE && off + m <= ino[i].size
    ensures var b := Slot(disk, ino[i], off / BSIZE);
            b < |disk| && disk[b][off % BSIZE..off % BSIZE + m] == Contents(disk, ino[i])[off..off + m]
  {
    var b := Slot(disk, ino[i], off / BSIZE);
    assert FileOk(disk, use, i, ino[i]) && PieceOk(disk, use, i, ino[i], off / BSIZE) && BlockOk(l, disk, use, b);
    var s := disk[b][off % BSIZE..off % BSIZE + m];
    var c := Contents(disk, ino[i])[off..off + m];
    forall k | 0 <= k < m
      ensures s[k] == c[k]
    {
      assert (off + k) / BSIZE == off / BSIZE && (off + k) % BSIZE == off % BSIZE + k;
    }
  }

  /** bmap and bread for one round of readi. */
  method ReadPiece(fs: Fs, i: nat, off: nat, m: nat) returns (part: seq<nat>)
    requires fs.Valid() && i in fs.ino && NoHoles(fs.disk, fs.ino[i]) && 0 < m <= BSIZE - off % BSIZE
    requires off + m <= fs.ino[i].size
    modifies fs`disk, fs`logged, fs`use, fs`ino
    ensures fs.Unchanged(old(fs.disk), old(fs.ino), old(fs.use), old(fs.logged))
    ensures part == Contents(fs.disk, fs.ino[i])[off..off + m]
  {
    HasSlot(fs, i, off);
    var addr, marks := fs.BMap(i, off / BSIZE);
    SliceOfBlock(fs.l, fs.disk, fs.ino, fs.use, i, off, m);
    part := fs.disk[addr][off % BSIZE..off % BSIZE + m];
  }

  /** One round of readi. */
  method ReadRound(fs: Fs, i: nat, off: nat, n: nat, tot: nat, dst: seq<nat>, room: nat, ghost off0: nat)
    returns (ok: bool, tot': nat, off': nat, dst': seq<nat>)
    requires fs.Valid() && i in fs.ino && NoHoles(fs.disk, fs.ino[i]) && tot < n && off == off0 + tot
    requires off0 + n <= fs.ino[i].size
    requires dst == Contents(fs.disk, fs.ino[i])[off0..off] && tot <= room
    modifies fs`disk, fs`logged, fs`use, fs`ino
    ensures fs.Unchanged(old(fs.disk), old(fs.ino), old(fs.use), old(fs.logged))
    ensures ok ==>
              tot < tot' <= n && off' == off0 + tot' && tot' <= room && dst' == Contents(fs.disk, fs.ino[i])[off0..off']
    ensures !ok ==> n > room
  {
    var m := Min(n - tot, BSIZE - off % BSIZE);
    tot', off', dst' := tot, off, dst;
    var part := ReadPiece(fs, i, off, m);
    ok := tot + m <= room;
    if ok {
      SliceMore(Contents(fs.disk, fs.ino[i]), off0, off, m);
      dst' := dst + part;
      tot' := tot + m;
      off' := off + m;
    }
  }

  /** Reads n bytes at off; room is how much of the destination can be written. */
  method ReadI(fs: Fs, i: nat, off0: nat, n0: nat, room: nat) returns (r: int, dst: seq<nat>)
    requires fs.Valid() && i in fs.ino && NoHoles(fs.disk, fs.ino[i])
    modifies fs`disk, fs`logged, fs`use, fs`ino
    ensures fs.Unchanged(old(fs.disk), old(fs.ino), old(fs.use), old(fs.logged))
    ensures var size := fs.ino[i].size;
            var count := if off0 > size || off0 + n0 >= 0x1_0000_0000 then 0 else Min(n0, size - off0);
            && r == (if count <= room then count else -1)
            && (r >= 0 ==> dst == if count == 0 then [] else Contents(fs.disk, fs.ino[i])[off0..off0 + count])
  {
    dst := [];
    if off0 > fs.ino[i].size || off0 + n0 >= 0x1_0000_0000 {
      return 0, [];
    }
    var n, tot, off := n0, 0, off0;
    if off0 + n > fs.ino[i].size {
      n := fs.ino[i].size - off0;
    }
    ghost var c := Contents(fs.disk, fs.ino[i]);
    while tot < n
      invariant fs.Unchanged(old(fs.disk), old(fs.ino), old(fs.use), old(fs.logged))
      invariant tot <= n && off == off0 + tot && off0 + n <= |c| && tot <= room
      invariant dst == c[off0..off]
    {
      var ok;
      ok, tot, off, dst := ReadRound(fs, i, off, n, tot, dst, room, off0);
      if !ok {
        return -1, dst;
      }
    }
    return tot, dst;
  }

  // ---------- writei ----------

  ghost predicate Covered(disk: Disk, x: Inode, upto: nat) {
    |x.addrs| == NDIRECT + 1 && forall k {:trigger Slot(disk, x, k)} :: 0 <= k < MAXFILE && k * BSIZE < upto ==>
        Slot(disk, x, k) != 0
  }

  lemma CoveredMore(disk: Disk, x: Inode, e: Disk, y: Inode, off: nat, m: nat)
    requires Covered(disk, x, off) && SameBlocks(disk, x, e, y) && off / BSIZE < MAXFILE
    requires Slot(e, y, off / BSIZE) != 0 && off % BSIZE + m <= BSIZE
    ensures Covered(e, y, off + m)
  {
    forall k | 0 <= k < MAXFILE && k * BSIZE < off + m
      ensures Slot(e, y, k) != 0
    {
      assert k <= off / BSIZE;
      if k < off / BSIZE {
        assert k * BSIZE < off;
        assert Slot(disk, x, k) != 0;
      }
    }
  }

  /** An indirect block stays the indirect block of its file. */
  lemma TableStays(l: Layout, disk: Disk, ino: map<nat, Inode>, use: map<nat, Use>, e: Disk, now: map<nat, Inode>,
                   use': map<nat, Use>, i: nat)
    requires Inv(l, disk, ino, use) && Inv(l, e, now, use') && Kept(disk, ino, use, e, now, use') && i in ino
    ensures |ino[i].addrs| == |now[i].addrs| == NDIRECT + 1
    ensures ino[i].addrs[NDIRECT] != 0 ==> now[i].addrs[NDIRECT] == ino[i].addrs[NDIRECT]
  {
    var t := ino[i].addrs[NDIRECT];
    assert FileOk(disk, use, i, ino[i]) && FileOk(e, use', i, now[i]);
    assert t != 0 ==> use'[t] == Table(i) && UseOk(e, now, use', t);
  }

  ghost function Look(fs: Fs): Snap
    reads fs
  {
    Snap(fs.disk, fs.ino, fs.use, fs.logged)
  }

  /** What bmap does, as a round that writes nothing. */
  lemma Mapped(l: Layout, t: Snap, u: Snap, i: nat, n: nat, addr: nat)
    requires Ok(l, t) && Ok(l, u) && Located(t.disk, t.ino, t.use, u.disk, u.ino, u.use, i, n, addr)
    requires HasFile(t, i) && HasFile(u, i) && n < MAXFILE
    requires Allots(l, t.use, u.use, t.logged, u.logged, Fresh(t.disk, t.ino[i], u.ino[i], n, addr),
                    Entered(t.disk, t.ino[i], u.ino[i], n, addr))
    requires TableOf(u, i) != TableOf(t, i) ==> n >= NDIRECT && At(t, i, n) == 0
    requires OnlyLogged(t.disk, u.disk, u.logged)
    ensures PieceCosts(l, t, u, i, n, addr, false)
  {
    LocatedFills(l, t, u, i, n, addr);
    FromBMap(l, t, u, i, n, addr);
  }

  lemma LocatedFills(l: Layout, t: Snap, u: Snap, i: nat, n: nat, addr: nat)
    requires Ok(l, t) && Ok(l, u) && Located(t.disk, t.ino, t.use, u.disk, u.ino, u.use, i, n, addr)
    requires HasFile(t, i) && HasFile(u, i) && n < MAXFILE
    ensures At(u, i, n) == addr && Fills(t, u, i, n, n + 1)
  {
    TableStays(l, t.disk, t.ino, t.use, u.disk, u.ino, u.use, i);
    assert SlotsAre(t.disk, t.ino[i], u.disk, u.ino[i], n, addr);
  }

  /** And then the block is written. */
  lemma MappedAndWritten(l: Layout, t: Snap, u: Snap, i: nat, n: nat, addr: nat, x: Block)
    requires Ok(l, u) && PieceCosts(l, t, u, i, n, addr, false) && addr != 0 && addr < |u.disk|
    requires HasFile(t, i) && HasFile(u, i) && n < MAXFILE && At(u, i, n) == addr
    ensures PieceCosts(l, t, u.(disk := u.disk[addr := x], logged := u.logged + {addr}), i, n, addr, true)
  {
    var v := u.(disk := u.disk[addr := x], logged := u.logged + {addr});
    StillPlaced(l, u, v, i, n, x);
    AndWritten(l, t, u, v, i, n, addr);
  }

  lemma StillPlaced(l: Layout, u: Snap, v: Snap, i: nat, n: nat, x: Block)
    requires Ok(l, u) && HasFile(u, i) && n < MAXFILE && At(u, i, n) != 0 && At(u, i, n) < |u.disk|
    requires v.disk == u.disk[At(u, i, n) := x] && v.ino == u.ino
    ensures SamePlaces(u, v, i)
  {
    PlaceOf(l, u, i, n);
    assert FileOk(u.disk, u.use, i, u.ino[i]);
    SlotsKept(u.disk, v.disk, u.use, i, u.ino[i]);
  }

  /** One round of writei: part goes to off if a block can be had and the source can be read. */
  method WritePiece(fs: Fs, i: nat, off: nat, part: seq<Byte>, readable: bool, ghost t: Snap, ghost n: nat)
    returns (ok: bool, ghost addr: nat)
    requires t == Look(fs) && off / BSIZE == n < MAXFILE && off % BSIZE + |part| <= BSIZE
    requires fs.Valid() && i in fs.ino && Covered(fs.disk, fs.ino[i], off)
    modifies fs`disk, fs`logged, fs`use, fs`ino
    ensures fs.Valid() && i in fs.ino
    ensures BytesAre(old(fs.disk), old(fs.ino), fs.disk, fs.ino, i, off, if ok then part else [])
    ensures Covered(fs.disk, fs.ino[i], if ok then off + |part| else off)
    ensures ok ==> readable
    ensures !ok && readable ==> Stuck(fs.l, Look(fs), i, n)
    ensures PieceCosts(fs.l, t, Look(fs), i, n, addr, ok)
  {
    ghost var d0, i0, u0 := fs.disk, fs.ino, fs.use;
    var b;
    ghost var took;
    b, took := fs.BMap(i, off / BSIZE);
    addr := b;
    Mapped(fs.l, t, Look(fs), i, n, b);
    LocatedBytes(fs.l, d0, i0, u0, fs.disk, fs.ino, fs.use, i, off / BSIZE, b, off);
    assert SameBlocks(d0, i0[i], fs.disk, fs.ino[i]);
    ok := b != 0 && readable;
    if !ok {
      return;
    }
    assert SlotsAre(d0, i0[i], fs.disk, fs.ino[i], off / BSIZE, b);
    ghost var d1 := fs.disk;
    CoveredMore(d0, i0[i], d1, fs.ino[i], off, |part|);
    PutPiece(fs, i, off, part, b, t, n);
    BytesTwice(d0, i0, d1, fs.ino, fs.disk, fs.ino, i, off, [], off, part);
    assert [] + part == part;
  }

  /** bread, either_copyin and log_write for the block that bmap has found. */
  method PutPiece(fs: Fs, i: nat, off: nat, part: seq<Byte>, b: nat, ghost t: Snap, ghost n: nat)
    requires fs.Valid() && off / BSIZE == n < MAXFILE && off % BSIZE + |part| <= BSIZE && HasFile(t, i)
    requires HasFile(Look(fs), i) && b == At(Look(fs), i, n) != 0 && PieceCosts(fs.l, t, Look(fs), i, n, b, false)
    modifies fs`disk, fs`logged
    ensures fs.Valid() && PieceCosts(fs.l, t, Look(fs), i, n, b, true)
    ensures BytesAre(old(fs.disk), fs.ino, fs.disk, fs.ino, i, off, part)
  {
    PatchBlock(fs.l, fs.disk, fs.ino, fs.use, i, off, part);
    MappedAndWritten(fs.l, t, Look(fs), i, n, b, Patched(fs.disk[b], off % BSIZE, part));
    fs.disk := fs.disk[b := Patched(fs.disk[b], off % BSIZE, part)];
    fs.logged := fs.logged + {b};
  }

  /** After tot bytes. */
  ghost predicate Written(s: Snap, t: Snap, i: nat, off0: nat, src: seq<Byte>, tot: nat) {
    && i in s.ino && i in t.ino && tot <= |src|
    && BytesAre(s.disk, s.ino, t.disk, t.ino, i, off0, src[..tot])
    && Covered(t.disk, t.ino[i], off0 + tot)
  }

  lemma WrittenMore(s: Snap, t: Snap, u: Snap, i: nat, off0: nat, src: seq<Byte>, tot: nat, m: nat, ok: bool)
    requires Written(s, t, i, off0, src, tot) && i in u.ino && tot + (if ok then m else 0) <= |src|
    requires BytesAre(t.disk, t.ino, u.disk, u.ino, i, off0 + tot, if ok then src[tot..tot + m] else [])
    requires Covered(u.disk, u.ino[i], if ok then off0 + tot + m else off0 + tot)
    ensures Written(s, u, i, off0, src, if ok then tot + m else tot)
  {
    var part := if ok then src[tot..tot + m] else [];
    BytesTwice(s.disk, s.ino, t.disk, t.ino, u.disk, u.ino, i, off0, src[..tot], off0 + tot, part);
    assert src[..tot] + part == src[..if ok then tot + m else tot];
  }

  /** The bytes that one round moves. */
  function Round(off: nat, left: nat): nat {
    Min(left, BSIZE - off % BSIZE)
  }

  /** Why a write of m bytes more could not be done: they cannot be read, or the disk is full. */
  ghost predicate Stopped(l: Layout, disk: Disk, tot: nat, m: nat, room: nat) {
    tot + m > room || Full(l, disk)
  }

  /** Why the round at block k could not be done. */
  ghost predicate StoppedAt(l: Layout, t: Snap, i: nat, k: int, tot: nat, m: nat, room: nat) {
    tot + m > room || Stuck(l, t, i, k)
  }

  /** How far chunks rounds that start first bytes into a block have got. */
  predicate Counted(first: nat, tot: nat, n: nat, chunks: nat) {
    && (chunks == 0 ==> tot == 0)
    && (chunks > 0 ==> (chunks - 1) * BSIZE < tot + first <= chunks * BSIZE)
    && (tot < n && chunks > 0 ==> chunks * BSIZE == tot + first)
  }

  /** The m bytes at off are in block b. */
  predicate FitsBlock(off: nat, m: nat, b: nat) {
    off / BSIZE == b < MAXFILE && off % BSIZE + m <= BSIZE
  }

  /** Position off is first bytes into block a. */
  predicate Inside(off: nat, a: nat, first: nat) {
    off == a * BSIZE + first && first < BSIZE
  }

  lemma ChunkCount(off0: nat, off: nat, tot: nat, n: nat, m: nat, a: nat, b: nat, first: nat)
    requires tot < n && off == off0 + tot && m == Round(off, n - tot) && off0 + n <= MAXFILE * BSIZE
    requires Inside(off0, a, first) && a <= b && Counted(first, tot, n, b - a)
    ensures FitsBlock(off, m, b) && 0 < m <= n - tot
    ensures Progress(first, tot, n, b + 1 - a, false) && Progress(first, tot + m, n, b + 1 - a, true)
  {
  }

  /** The loop of writei, over the blocks from a up to b, the last of which may have come to nothing. */
  method WriteLoop(fs: Fs, i: nat, off0: nat, n: nat, src: seq<Byte>, ghost a: nat, ghost first: nat)
    returns (tot: nat, ghost b: nat)
    requires fs.Valid() && i in fs.ino && NoHoles(fs.disk, fs.ino[i]) && off0 <= fs.ino[i].size
    requires off0 + n <= MAXFILE * BSIZE
    requires Inside(off0, a, first)
    modifies fs`disk, fs`logged, fs`use, fs`ino
    ensures fs.Valid() && tot <= n && Written(old(Look(fs)), Look(fs), i, off0, src, tot)
    ensures a <= b && Progress(first, tot, n, b - a, tot == n) && (b > a ==> n > 0)
    ensures tot < n ==> StoppedAt(fs.l, Look(fs), i, b - 1, tot, Round(off0 + tot, n - tot), |src|)
    ensures Rounds(fs.l, old(Look(fs)), Look(fs), i, a, b, tot == n)
  {
    var off := off0;
    tot, b := 0, a;
    ghost var s := Look(fs);
    WrittenNothing(fs, i, off0, src);
    CostsNone(fs.l, s, i, a);
    var ok := true;
    while tot < n && ok
      invariant fs.Valid() && tot <= n && off == off0 + tot && (ok || tot < n)
      invariant Written(s, Look(fs), i, off0, src, tot) && Rounds(fs.l, s, Look(fs), i, a, b, ok)
      invariant a <= b && Progress(first, tot, n, b - a, ok) && (b > a ==> n > 0)
      invariant !ok ==> StoppedAt(fs.l, Look(fs), i, b - 1, tot, Round(off, n - tot), |src|)
      decreases n - tot, ok
    {
      ok, tot, off, b := NextRound(fs, i, off, n, src, tot, off0, s, a, b, first);
    }
  }

  predicate Progress(first: nat, tot: nat, n: nat, chunks: nat, ok: bool) {
    if ok then Counted(first, tot, n, chunks) else tot < n && chunks > 0 && (chunks - 1) * BSIZE < n + first
  }

  /** One round of the loop of writei, and how it advances. */
  method NextRound(fs: Fs, i: nat, off: nat, n: nat, src: seq<Byte>, tot: nat, ghost off0: nat, ghost s: Snap,
                   ghost a: nat, ghost b: nat, ghost first: nat)
    returns (ok: bool, tot': nat, off': nat, ghost b': nat)
    requires fs.Valid() && Written(s, Look(fs), i, off0, src, tot) && Rounds(fs.l, s, Look(fs), i, a, b, true)
    requires Inside(off0, a, first) && a <= b && Counted(first, tot, n, b - a)
    requires off == off0 + tot && tot < n && off0 + n <= MAXFILE * BSIZE
    modifies fs`disk, fs`logged, fs`use, fs`ino
    ensures fs.Valid() && Written(s, Look(fs), i, off0, src, tot')
    ensures off' == off0 + tot' && (if ok then tot < tot' <= n else tot' == tot)
    ensures b' == b + 1 && Progress(first, tot', n, b' - a, ok) && Rounds(fs.l, s, Look(fs), i, a, b', ok)
    ensures !ok ==> StoppedAt(fs.l, Look(fs), i, b' - 1, tot', Round(off', n - tot'), |src|)
  {
    var m := Round(off, n - tot);
    ChunkCount(off0, off, tot, n, m, a, b, first);
    ok, tot', off', b' := WriteRound(fs, i, off, m, src, tot, off0, s, a, b);
  }

  /** One round of the loop of writei. */
  method WriteRound(fs: Fs, i: nat, off: nat, m: nat, src: seq<Byte>, tot: nat, ghost off0: nat, ghost s: Snap,
                    ghost a: nat, ghost b: nat)
    returns (ok: bool, tot': nat, off': nat, ghost b': nat)
    requires fs.Valid() && Written(s, Look(fs), i, off0, src, tot) && Rounds(fs.l, s, Look(fs), i, a, b, true)
    requires off == off0 + tot && FitsBlock(off, m, b)
    modifies fs`disk, fs`logged, fs`use, fs`ino
    ensures b' == b + 1 && tot' == (if ok then tot + m else tot) && off' == off0 + tot'
    ensures fs.Valid() && Written(s, Look(fs), i, off0, src, tot')
    ensures Rounds(fs.l, s, Look(fs), i, a, b', ok)
    ensures !ok ==> StoppedAt(fs.l, Look(fs), i, b' - 1, tot, m, |src|)
  {
    ghost var t, addr := Look(fs), 0;
    ghost var part := if tot + m <= |src| then src[tot..tot + m] else [];
    ok, addr := WritePiece(fs, i, off, if tot + m <= |src| then src[tot..tot + m] else [], tot + m <= |src|, t, b);
    b', tot', off' := b + 1, tot, off;
    if ok {
      tot' := tot + m;
      off' := off + m;
    }
    RoundDone(fs.l, s, t, Look(fs), i, off0, src, tot, m, a, b, addr, ok, part, tot', b');
  }

  lemma RoundDone(l: Layout, s: Snap, t: Snap, u: Snap, i: nat, off0: nat, src: seq<Byte>, tot: nat, m: nat, a: nat,
                  b: nat, addr: nat, ok: bool, part: seq<Byte>, tot': nat, b': nat)
    requires Written(s, t, i, off0, src, tot) && Rounds(l, s, t, i, a, b, true)
    requires PieceCosts(l, t, u, i, b, addr, ok) && part == (if tot + m <= |src| then src[tot..tot + m] else [])
    requires i in u.ino && (ok ==> tot + m <= |src|)
    requires BytesAre(t.disk, t.ino, u.disk, u.ino, i, off0 + tot, if ok then part else [])
    requires Covered(u.disk, u.ino[i], if ok then off0 + tot + |part| else off0 + tot)
    requires b' == b + 1 && tot' == if ok then tot + m else tot
    ensures Rounds(l, s, u, i, a, b', ok) && Written(s, u, i, off0, src, tot')
  {
    WrittenMore(s, t, u, i, off0, src, tot, m, ok);
    CostsMore(l, s, t, u, i, a, b, addr, ok, b');
  }

  lemma WrittenNothing(fs: Fs, i: nat, off0: nat, src: seq<Byte>)
    requires fs.Valid() && i in fs.ino && NoHoles(fs.disk, fs.ino[i]) && off0 <= fs.ino[i].size
    ensures Written(Look(fs), Look(fs), i, off0, src, 0)
  {
    forall j | j in fs.ino
      ensures SameBlocks(fs.disk, fs.ino[j], fs.disk, fs.ino[j])
    {
      assert FileOk(fs.disk, fs.use, j, fs.ino[j]);
    }
  }

  // ---------- the whole of writei ----------

  function Grow(ino: map<nat, Inode>, i: nat, end: nat): map<nat, Inode>
    requires i in ino
  {
    if end > ino[i].size then ino[i := ino[i].(size := end)] else ino
  }

  /** File i has s at off; every other file has the same bytes, and no file has holes. */
  ghost predicate FileWritten(disk: Disk, ino: map<nat, Inode>, e: Disk, now: map<nat, Inode>, i: nat, off: nat,
                              s: seq<nat>) {
    && now.Keys == ino.Keys && i in ino && off <= ino[i].size
    && Contents(e, now[i]) == Patched(Contents(disk, ino[i]), off, s)
    && (forall j {:trigger now[j]} :: j in ino && j != i ==>
           Contents(e, now[j]) == Contents(disk, ino[j]) && now[j].(addrs := ino[j].addrs) == ino[j])
    && Dense(e, now)
  }

  lemma AfterLoop(s: Snap, t: Snap, i: nat, off0: nat, src: seq<Byte>, tot: nat)
    requires Written(s, t, i, off0, src, tot) && Dense(s.disk, s.ino)
    requires off0 <= s.ino[i].size && off0 + tot <= MAXFILE * BSIZE
    ensures FileWritten(s.disk, s.ino, t.disk, Grow(t.ino, i, off0 + tot), i, off0, src[..tot])
  {
    var now := Grow(t.ino, i, off0 + tot);
    assert SameBlocks(s.disk, s.ino[i], t.disk, t.ino[i]);
    forall j | j in s.ino && j != i
      ensures Contents(t.disk, now[j]) == Contents(s.disk, s.ino[j]) && NoHoles(t.disk, now[j])
    {
      assert SameBlocks(s.disk, s.ino[j], t.disk, t.ino[j]) && NoHoles(s.disk, s.ino[j]);
      forall k | 0 <= k < s.ino[j].size
        ensures ByteAt(t.disk, now[j], k) == ByteAt(s.disk, s.ino[j], k)
      {
      }
    }
    AfterLoopFile(s, t, i, off0, src, tot);
  }

  lemma AfterLoopFile(s: Snap, t: Snap, i: nat, off0: nat, src: seq<Byte>, tot: nat)
    requires Written(s, t, i, off0, src, tot) && NoHoles(s.disk, s.ino[i])
    requires off0 <= s.ino[i].size && off0 + tot <= MAXFILE * BSIZE
    ensures var x := Grow(t.ino, i, off0 + tot)[i];
            Contents(t.disk, x) == Patched(Contents(s.disk, s.ino[i]), off0, src[..tot]) && NoHoles(t.disk, x)
  {
    var x := Grow(t.ino, i, off0 + tot)[i];
    assert SameBlocks(s.disk, s.ino[i], t.disk, t.ino[i]);
    var c := Patched(Contents(s.disk, s.ino[i]), off0, src[..tot]);
    forall k | 0 <= k < |c|
      ensures ByteAt(t.disk, x, k) == c[k]
    {
      assert ByteAt(t.disk, x, k) == ByteAt(t.disk, t.ino[i], k);
    }
    forall k | 0 <= k < MAXFILE && k * BSIZE < x.size
      ensures Slot(t.disk, x, k) != 0
    {
      assert Slot(t.disk, x, k) == Slot(t.disk, t.ino[i], k);
      assert k * BSIZE < s.ino[i].size ==> Slot(s.disk, s.ino[i], k) != 0;
    }
  }

  /** The number of blocks that [off, off + n) reaches into. */
  function BlockCount(off: nat, n: nat): nat {
    (off % BSIZE + n + BSIZE - 1) / BSIZE
  }

  /** The most blocks that writing n bytes at off logs: the data blocks; for each of them, and for the
      indirect block, a bitmap block, except for a first block that is written only in part, which a
      file without holes has already; the indirect block; and the block of the inode. */
  function LogCost(off: nat, n: nat): nat {
    2 * BlockCount(off, n) + 3 - (if n > 0 && off % BSIZE > 0 then 1 else 0)
  }

  lemma CostOf(l: Layout, s: Snap, t: Snap, i: nat, off: nat, n: nat, a: nat, b: nat, ok: bool, iblock: nat)
    requires Rounds(l, s, t, i, a, b, ok) && a == off / BSIZE && a <= b
    requires (b - a) * BSIZE < n + off % BSIZE + BSIZE && (n == 0 ==> a == b)
    requires i in s.ino && NoHoles(s.disk, s.ino[i]) && off <= s.ino[i].size
    ensures |t.logged + {iblock} - s.logged| <= LogCost(off, n)
  {
    RoundsBound(l, s, t, i, a, b, ok, iblock);
    RoundCost(off, n, b - a);
    if off % BSIZE > 0 {
      HasFirst(s, i, off);
    }
  }

  lemma RoundCost(off: nat, n: nat, chunks: nat)
    requires chunks * BSIZE < n + off % BSIZE + BSIZE && (n == 0 ==> chunks == 0)
    ensures chunks <= BlockCount(off, n)
    ensures 2 * chunks + 3 - (if chunks > 0 && off % BSIZE > 0 then 1 else 0) <= LogCost(off, n)
  {
  }

  /** A file without holes has the block that a write starts inside. */
  lemma HasFirst(s: Snap, i: nat, off: nat)
    requires i in s.ino && NoHoles(s.disk, s.ino[i]) && off <= s.ino[i].size && off % BSIZE > 0 && off / BSIZE < MAXFILE
    ensures HasFile(s, i) && At(s, i, off / BSIZE) != 0
  {
    assert off / BSIZE * BSIZE < off;
  }

  /** One filewrite chunk, at any offset, stays within what one operation may log. */
  lemma ChunkFits(off: nat, n: nat)
    requires n <= 3 * BSIZE
    ensures LogCost(off, n) <= 10 && BlockCount(off, n) <= 4 && (BlockCount(off, n) == 4 ==> off % BSIZE > 0)
  {
  }

  /** Writes n bytes to file i at off0, or the part of them that can be read and finds room. If that is all of them, the
      blocks from a up to b have been written. */
  method WriteI(fs: Fs, i: nat, off0: nat, n: nat, src: seq<Byte>) returns (r: int, ghost a: nat, ghost b: nat)
    requires fs.Valid() && i in fs.ino && Dense(fs.disk, fs.ino)
    modifies fs
    ensures fs.Valid() && Dense(fs.disk, fs.ino) && -1 <= r <= n && r <= |src|
    ensures r == -1 <==> off0 > old(fs.ino)[i].size || off0 + n >= 0x1_0000_0000 || off0 + n > MAXFILE * BSIZE
    ensures r == -1 ==> fs.Unchanged(old(fs.disk), old(fs.ino), old(fs.use), old(fs.logged)) && fs.dino == old(fs.dino)
    ensures r >= 0 ==> FileWritten(old(fs.disk), old(fs.ino), fs.disk, fs.ino, i, off0, src[..r])
    ensures r >= 0 ==> fs.dino == old(fs.dino)[i := fs.ino[i]]
    ensures 0 <= r < n ==> Stopped(fs.l, fs.disk, r, Round(off0 + r, n - r), |src|)
    ensures SameHeld(old(fs.use), fs.use)
    ensures LogsItself(fs.l, i, old(Look(fs)), fs.disk, fs.logged) && (r >= 0 ==> IBlock(fs.l, i) in fs.logged)
    ensures r >= 0 && 0 < n <= |src| ==>
              (r == n <==> Enough(old(Look(fs)), i, off0 / BSIZE, off0 / BSIZE + BlockCount(off0, n)))
    ensures |fs.logged - old(fs.logged)| <= LogCost(off0, n)
    ensures r == n > 0 ==>
              a == off0 / BSIZE && b == a + BlockCount(off0, n) && Whole(fs.l, old(Look(fs)), Look(fs), i, a, b)
  {
    if off0 > fs.ino[i].size || off0 + n >= 0x1_0000_0000 {
      assert fs.logged - fs.logged == {};
      return -1, 0, 0;
    }
    if off0 + n > MAXFILE * BSIZE {
      assert fs.logged - fs.logged == {};
      return -1, 0, 0;
    }
    r, a, b := WriteAll(fs, i, off0, n, src);
  }

  /** writei after its checks. */
  method WriteAll(fs: Fs, i: nat, off0: nat, n: nat, src: seq<Byte>) returns (tot: nat, ghost a: nat, ghost b: nat)
    requires fs.Valid() && i in fs.ino && Dense(fs.disk, fs.ino) && off0 <= fs.ino[i].size
    requires off0 + n <= MAXFILE * BSIZE
    modifies fs
    ensures fs.Valid() && tot <= n && tot <= |src|
    ensures FileWritten(old(fs.disk), old(fs.ino), fs.disk, fs.ino, i, off0, src[..tot])
    ensures fs.dino == old(fs.dino)[i := fs.ino[i]]
    ensures tot < n ==> Stopped(fs.l, fs.disk, tot, Round(off0 + tot, n - tot), |src|)
    ensures SameHeld(old(fs.use), fs.use)
    ensures LogsItself(fs.l, i, old(Look(fs)), fs.disk, fs.logged) && IBlock(fs.l, i) in fs.logged
    ensures 0 < n <= |src| ==> (tot == n <==> Enough(old(Look(fs)), i, a, a + BlockCount(off0, n)))
    ensures |fs.logged - old(fs.logged)| <= LogCost(off0, n)
    ensures tot == n > 0 ==> b == a + BlockCount(off0, n) && Whole(fs.l, old(Look(fs)), Look(fs), i, a, b)
    ensures a == off0 / BSIZE
  {
    ghost var s := Look(fs);
    a := off0 / BSIZE;
    tot, b := WriteBlocks(fs, i, off0, n, src, a);
    ghost var t := Look(fs);
    SizeAndUpdate(fs, i, off0 + tot);
    if tot == n > 0 {
      IsWhole(fs.l, s, t, Look(fs), i, a, b);
    }
  }

  /** The loop of writei, and what it means for the contents and for the log. */
  method WriteBlocks(fs: Fs, i: nat, off0: nat, n: nat, src: seq<Byte>, ghost a: nat) returns (tot: nat, ghost b: nat)
    requires a == off0 / BSIZE
    requires fs.Valid() && i in fs.ino && Dense(fs.disk, fs.ino) && off0 <= fs.ino[i].size
    requires off0 + n <= MAXFILE * BSIZE
    modifies fs`disk, fs`logged, fs`use, fs`ino
    ensures fs.Valid() && tot <= n && tot <= |src| && i in fs.ino
    ensures FileWritten(old(fs.disk), old(fs.ino), fs.disk, Grow(fs.ino, i, off0 + tot), i, off0, src[..tot])
    ensures tot < n ==> Stopped(fs.l, fs.disk, tot, Round(off0 + tot, n - tot), |src|)
    ensures |fs.logged + {IBlock(fs.l, i)} - old(fs.logged)| <= LogCost(off0, n)
    ensures Rounds(fs.l, old(Look(fs)), Look(fs), i, a, b, tot == n)
    ensures tot == n > 0 ==> b == a + BlockCount(off0, n)
    ensures SameHeld(old(fs.use), fs.use) && LogsItself(fs.l, i, old(Look(fs)), fs.disk, fs.logged)
    ensures 0 < n <= |src| ==> (tot == n <==> Enough(old(Look(fs)), i, a, a + BlockCount(off0, n)))
  {
    ghost var s := Look(fs);
    assert NoHoles(fs.disk, fs.ino[i]);
    tot, b := WriteLoop(fs, i, off0, n, src, a, off0 % BSIZE);
    EndOfLoop(off0, n, tot, b - a);
    Finds(fs.l, s, Look(fs), i, off0, n, |src|, tot, a, b);
    CostOf(fs.l, s, Look(fs), i, off0, n, a, b, tot == n, IBlock(fs.l, i));
    AfterLoop(s, Look(fs), i, off0, src, tot);
  }

  lemma EndOfLoop(off0: nat, n: nat, tot: nat, chunks: nat)
    requires Progress(off0 % BSIZE, tot, n, chunks, tot == n) && (chunks > 0 ==> n > 0)
    ensures chunks * BSIZE < n + off0 % BSIZE + BSIZE && (tot == n > 0 ==> chunks == BlockCount(off0, n))
    ensures tot < n ==> 0 < chunks <= BlockCount(off0, n)
  {
  }

  lemma LastBlock(off: nat, n: nat)
    requires off + n <= MAXFILE * BSIZE && n > 0
    ensures off / BSIZE + BlockCount(off, n) <= MAXFILE
  {
  }

  /** Every block that has changed since s has been logged, and no others but bitmap and data blocks and the block of
      inode i. */
  ghost predicate LogsItself(l: Layout, i: nat, s: Snap, disk: Disk, logged: set<nat>) {
    && OnlyLogged(s.disk, disk, logged)
    && forall x {:trigger x in logged} :: x in logged && x !in s.logged ==>
         x == IBlock(l, i) || l.bmapstart <= x < l.size
  }

  lemma Finds(l: Layout, s: Snap, t: Snap, i: nat, off0: nat, n: nat, readable: nat, tot: nat, a: nat, b: nat)
    requires Rounds(l, s, t, i, a, b, tot == n) && Ok(l, t) && a == off0 / BSIZE && a <= b && tot <= n
    requires off0 + n <= MAXFILE * BSIZE && (tot == n > 0 ==> b - a == BlockCount(off0, n))
    requires tot < n ==>
               b - a <= BlockCount(off0, n) && StoppedAt(l, t, i, b - 1, tot, Round(off0 + tot, n - tot), readable)
    ensures SameHeld(s.use, t.use) && LogsItself(l, i, s, t.disk, t.logged)
    ensures 0 < n <= readable ==> (tot == n <==> Enough(s, i, a, a + BlockCount(off0, n)))
  {
    HeldAfter(l, s, t, i, a, b, tot == n);
    forall x | x in t.logged && x !in s.logged
      ensures l.bmapstart <= x < l.size
    {
      LoggedAbove(l, s, t, i, a, b, tot == n, x);
    }
    if 0 < n <= readable {
      LastBlock(off0, n);
      RoomDecides(l, s, t, i, a, b, a + BlockCount(off0, n), tot == n);
    }
  }

  method SetSize(fs: Fs, i: nat, end: nat)
    requires fs.Valid() && i in fs.ino
    modifies fs`ino
    ensures fs.Valid() && fs.ino == Grow(old(fs.ino), i, end)
  {
    FieldsAreFree(fs.l, fs.disk, fs.ino, fs.use, i, fs.ino[i].(size := end));
    if end > fs.ino[i].size {
      fs.ino := fs.ino[i := fs.ino[i].(size := end)];
    }
  }

  method SizeAndUpdate(fs: Fs, i: nat, end: nat)
    requires fs.Valid() && i in fs.ino
    modifies fs`ino, fs`dino, fs`logged
    ensures fs.Valid() && fs.ino == Grow(old(fs.ino), i, end) && i in fs.ino && fs.dino == old(fs.dino)[i := fs.ino[i]]
    ensures fs.logged == old(fs.logged) + {IBlock(fs.l, i)} && fs.ino[i].addrs == old(fs.ino)[i].addrs
  {
    SetSize(fs, i, end);
    fs.IUpdate(i);
  }

  // ---------- filewrite ----------

  const MAXCHUNK := (MAXOPBLOCKS - 1 - 1 - 2) / 2 * BSIZE

  lemma NothingWritten(disk: Disk, ino: map<nat, Inode>, i: nat, off: nat)
    requires Dense(disk, ino) && i in ino && off <= ino[i].size
    ensures FileWritten(disk, ino, disk, ino, i, off, [])
  {
    assert Patched(Contents(disk, ino[i]), off, []) == Contents(disk, ino[i]);
  }

  lemma PatchedTwice<T>(c: seq<T>, off: nat, s: seq<T>, t: seq<T>)
    requires off <= |c|
    ensures Patched(Patched(c, off, s), off + |s|, t) == Patched(c, off, s + t)
  {
  }

  lemma FileWrittenTwice(disk: Disk, ino: map<nat, Inode>, e: Disk, now: map<nat, Inode>, f: Disk,
                         later: map<nat, Inode>, i: nat, off: nat, s: seq<nat>, next: nat, t: seq<nat>)
    requires FileWritten(disk, ino, e, now, i, off, s) && FileWritten(e, now, f, later, i, next, t) && next == off + |s|
    ensures FileWritten(disk, ino, f, later, i, off, s + t)
  {
    PatchedTwice(Contents(disk, ino[i]), off, s, t);
    forall j | j in ino && j != i
      ensures Contents(f, later[j]) == Contents(disk, ino[j]) && later[j].(addrs := ino[j].addrs) == ino[j]
    {
      assert Contents(e, now[j]) == Contents(disk, ino[j]) && now[j].(addrs := ino[j].addrs) == ino[j];
      assert Contents(f, later[j]) == Contents(e, now[j]) && later[j].(addrs := now[j].addrs) == now[j];
    }
  }

  lemma FileWrittenMore(disk: Disk, ino: map<nat, Inode>, e: Disk, now: map<nat, Inode>, f: Disk,
                        later: map<nat, Inode>, i: nat, off0: nat, src: seq<Byte>, done: nat, off: nat, r: nat)
    requires done + r <= |src| && off == off0 + done
    requires FileWritten(disk, ino, e, now, i, off0, src[..done])
    requires FileWritten(e, now, f, later, i, off, src[done..][..r])
    ensures FileWritten(disk, ino, f, later, i, off0, src[..done + r])
  {
    FileWrittenTwice(disk, ino, e, now, f, later, i, off0, src[..done], off, src[done..][..r]);
    assert src[..done] + src[done..][..r] == src[..done + r];
  }

  /** One transaction of filewrite, which logs no more than one operation may. */
  method WriteChunk(fs: Fs, i: nat, off: nat, n1: nat, src: seq<Byte>, done: nat, ghost d0: Disk,
                    ghost i0: map<nat, Inode>, ghost off0: nat)
    returns (r: int, off': nat, done': nat, ghost a: nat, ghost b: nat)
    requires fs.Valid() && done <= |src| && off == off0 + done && n1 <= MAXCHUNK
    requires FileWritten(d0, i0, fs.disk, fs.ino, i, off0, src[..done])
    modifies fs
    ensures fs.Valid() && -1 <= r <= n1 && done' == (if r > 0 then done + r else done) <= |src| && off' == off0 + done'
    ensures FileWritten(d0, i0, fs.disk, fs.ino, i, off0, src[..done'])
    ensures |fs.logged| <= MAXOPBLOCKS && SameHeld(old(fs.use), fs.use)
    ensures LogsItself(fs.l, i, old(Look(fs)).(logged := {}), fs.disk, fs.logged)
    ensures if r >= 0 then IBlock(fs.l, i) in fs.logged && i in fs.ino && fs.dino == old(fs.dino)[i := fs.ino[i]]
            else fs.dino == old(fs.dino)
    ensures r >= 0 && 0 < n1 <= |src| - done ==>
              (r == n1 <==> Enough(old(Look(fs)).(logged := {}), i, off / BSIZE, off / BSIZE + BlockCount(off, n1)))
    ensures r == n1 > 0 ==> a == off / BSIZE && b == a + BlockCount(off, n1)
    ensures r == n1 > 0 && IBlock(fs.l, i) < fs.l.bmapstart ==>
              (|fs.logged| == MAXOPBLOCKS <==> LogsTen(fs.l, old(Look(fs)).(logged := {}), i, a, b))
    ensures r < n1 ==>
              if r == -1 then TooFar(off, n1) else Stopped(fs.l, fs.disk, r, Round(off + r, n1 - r), |src| - done)
  {
    fs.logged := {};
    ghost var s := Look(fs);
    ghost var d1, i1 := fs.disk, fs.ino;
    assert |Contents(d1, i1[i])| == i1[i].size;
    ChunkFits(off, n1);
    r, a, b := WriteI(fs, i, off, n1, src[done..]);
    assert fs.logged - {} == fs.logged;
    if r == n1 > 0 && IBlock(fs.l, i) < fs.l.bmapstart {
      ChunkLogsTen(fs.l, s, Look(fs), i, off, n1, a, b);
    }
    off', done' := off, done;
    if r >= 0 {
      FileWrittenMore(d0, i0, d1, i1, fs.disk, fs.ino, i, off0, src, done, off, r);
      off', done' := off + r, done + r;
    }
  }

  lemma ChunkLogsTen(l: Layout, s: Snap, t: Snap, i: nat, off: nat, n: nat, a: nat, b: nat)
    requires Whole(l, s, t, i, a, b) && a == off / BSIZE && b == a + BlockCount(off, n)
    requires s.logged == {} && Ok(l, t) && IBlock(l, i) < l.bmapstart
    requires 0 < n <= 3 * BSIZE && i in s.ino && NoHoles(s.disk, s.ino[i]) && off <= s.ino[i].size
    ensures |t.logged| == 10 <==> LogsTen(l, s, i, a, b)
  {
    ChunkFits(off, n);
    WholeIsThere(l, s, t, i, a, b);
    if off % BSIZE > 0 {
      HasFirst(s, i, off);
    }
    TenBlocks(l, s, t, i, a, b);
  }

  /** writei's checks: the range goes past 2^32 or past the largest file. */
  predicate TooFar(off: nat, n: nat) {
    off + n >= 0x1_0000_0000 || off + n > MAXFILE * BSIZE
  }

  /** Why left bytes more are not written at off: the disk is full, the next piece of the source cannot be read, or
      the next chunk would go too far. */
  ghost predicate CannotGoOn(l: Layout, disk: Disk, off: nat, left: nat, readable: nat) {
    Full(l, disk) || readable < Min(left, BSIZE) || TooFar(off, Min(left, MAXCHUNK))
  }

  /** done bytes were written in transactions of one chunk each, and none has logged more blocks than it may. */
  ghost predicate LogsFit(done: nat, logs: seq<set<nat>>) {
    done <= |logs| * MAXCHUNK && forall k :: 0 <= k < |logs| ==> |logs[k]| <= MAXOPBLOCKS
  }

  lemma OneMoreFits(done: nat, logs: seq<set<nat>>, logged: set<nat>, done': nat)
    requires LogsFit(done, logs) && |logged| <= MAXOPBLOCKS && done' <= done + MAXCHUNK
    ensures LogsFit(done', logs + [logged])
  {
  }

  lemma ChunkStopped(l: Layout, disk: Disk, off: nat, n1: nat, left: nat, r: int, readable: nat)
    requires -1 <= r < n1 && n1 == Min(left, MAXCHUNK) && r <= readable
    requires if r == -1 then TooFar(off, n1) else Stopped(l, disk, r, Round(off + r, n1 - r), readable)
    ensures r <= 0 ==> CannotGoOn(l, disk, off, left, readable)
    ensures r > 0 ==> CannotGoOn(l, disk, off + r, left - r, readable - r)
  {
  }

  /** One round of the loop of filewrite. */
  method FileRound(fs: Fs, i: nat, off: nat, left: nat, src: seq<Byte>, done: nat, ghost d0: Disk,
                   ghost i0: map<nat, Inode>, ghost off0: nat, ghost logs: seq<set<nat>>)
    returns (more: bool, off': nat, done': nat, ghost logs': seq<set<nat>>)
    requires fs.Valid() && done <= |src| && off == off0 + done && 0 < left && LogsFit(done, logs)
    requires FileWritten(d0, i0, fs.disk, fs.ino, i, off0, src[..done])
    modifies fs
    ensures fs.Valid() && done <= done' <= |src| && off' == off0 + done' && done' <= done + left
    ensures (more ==> done < done')
    ensures FileWritten(d0, i0, fs.disk, fs.ino, i, off0, src[..done'])
    ensures !more ==> done' < done + left && CannotGoOn(fs.l, fs.disk, off', done + left - done', |src| - done')
    ensures LogsFit(done', logs') && SameHeld(old(fs.use), fs.use)
  {
    var n1 := Min(left, MAXCHUNK);
    var r;
    ghost var a, b;
    r, off', done', a, b := WriteChunk(fs, i, off, n1, src, done, d0, i0, off0);
    more := r == n1;
    if !more {
      ChunkStopped(fs.l, fs.disk, off, n1, left, r, |src| - done);
    }
    logs' := logs + [fs.logged];
    OneMoreFits(done, logs, fs.logged, done');
  }

  /** The loop of filewrite, a few blocks in each transaction; logs is what each transaction logged. */
  method FileChunks(fs: Fs, i: nat, off0: nat, n: nat, src: seq<Byte>)
    returns (done: nat, off: nat, ghost logs: seq<set<nat>>)
    requires fs.Valid() && i in fs.ino && Dense(fs.disk, fs.ino) && off0 <= fs.ino[i].size
    modifies fs
    ensures fs.Valid() && done <= |src| && done <= n && off == off0 + done
    ensures FileWritten(old(fs.disk), old(fs.ino), fs.disk, fs.ino, i, off0, src[..done])
    ensures done < n ==> CannotGoOn(fs.l, fs.disk, off, n - done, |src| - done)
    ensures LogsFit(done, logs) && SameHeld(old(fs.use), fs.use)
  {
    off, done, logs := off0, 0, [];
    ghost var d0, i0 := fs.disk, fs.ino;
    NothingWritten(fs.disk, fs.ino, i, off0);
    assert src[..0] == [];
    while done < n
      invariant fs.Valid() && done <= |src| && done <= n && off == off0 + done
      invariant FileWritten(d0, i0, fs.disk, fs.ino, i, off0, src[..done])
      invariant LogsFit(done, logs) && SameHeld(old(fs.use), fs.use)
    {
      var more;
      more, off, done, logs := FileRound(fs, i, off, n - done, src, done, d0, i0, off0, logs);
      if !more {
        break;
      }
    }
  }

  /** Writes n bytes at the file's offset. */
  method FileWrite(fs: Fs, i: nat, off0: nat, n: int, src: seq<Byte>)
    returns (ret: int, off: nat, ghost logs: seq<set<nat>>)
    requires fs.Valid() && i in fs.ino && Dense(fs.disk, fs.ino) && off0 <= fs.ino[i].size
    modifies fs
    ensures fs.Valid() && Dense(fs.disk, fs.ino) && off0 <= off <= off0 + |src|
    ensures off - off0 <= (if n < 0 then 0 else n)
    ensures FileWritten(old(fs.disk), old(fs.ino), fs.disk, fs.ino, i, off0, src[..off - off0])
    ensures ret == if n >= 0 && off - off0 == n then n else -1
    ensures ret == -1 && n >= 0 ==> CannotGoOn(fs.l, fs.disk, off, n - (off - off0), |src| - (off - off0))
    ensures LogsFit(off - off0, logs)
    ensures SameHeld(old(fs.use), fs.use)
  {
    var done;
    done, off, logs := FileChunks(fs, i, off0, if n < 0 then 0 else n, src);
    ret := if done == n then n else -1;
  }
}
