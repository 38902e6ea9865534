/** The bytes of files. */
module FileContents {
  import opened DiskBytes
  import opened FileBlocks

  function ByteAt(disk: Disk, x: Inode, off: nat): nat {
    if |x.addrs| == NDIRECT + 1 && off / BSIZE < MAXFILE && 0 < Slot(disk, x, off / BSIZE) < |disk|
    then disk[Slot(disk, x, off / BSIZE)][off % BSIZE] else 0
  }

  /** A file as a sequence of bytes. */
  function Contents(disk: Disk, x: Inode): (s: seq<nat>)
    ensures |s| == x.size && forall k :: 0 <= k < x.size ==> s[k] == ByteAt(disk, x, k)
  {
    seq<nat>(x.size, k requires 0 <= k < x.size => ByteAt(disk, x, k))
  }

  /** Block n of a file is the one whose number is entry n of its addrs, or the next ones in the block that the last
      entry names; the bytes of the file are those of its blocks, in order. */
  lemma BlockOfFile(disk: Disk, x: Inode, n: nat)
    requires |x.addrs| == NDIRECT + 1 && n < MAXFILE && (n + 1) * BSIZE <= x.size
    requires n >= NDIRECT ==> 0 < x.addrs[NDIRECT] < |disk|
    requires var b := if n < NDIRECT then x.addrs[n] else Word(disk[x.addrs[NDIRECT]], n - NDIRECT); 0 < b < |disk|
    ensures var b := if n < NDIRECT then x.addrs[n] else Word(disk[x.addrs[NDIRECT]], n - NDIRECT);
            Contents(disk, x)[n * BSIZE..(n + 1) * BSIZE] == disk[b]
  {
    var b := if n < NDIRECT then x.addrs[n] else Word(disk[x.addrs[NDIRECT]], n - NDIRECT);
    var s := Contents(disk, x)[n * BSIZE..(n + 1) * BSIZE];
    forall k | 0 <= k < BSIZE
      ensures s[k] == disk[b][k]
    {
      assert (n * BSIZE + k) / BSIZE == n && (n * BSIZE + k) % BSIZE == k;
    }
  }

  /** Every block below the size is there. */
  ghost predicate NoHoles(disk: Disk, x: Inode) {
    && |x.addrs| == NDIRECT + 1 && x.size <= MAXFILE * BSIZE
    && forall n {:trigger Slot(disk, x, n)} :: 0 <= n < MAXFILE && n * BSIZE < x.size ==> Slot(disk, x, n) != 0
  }

  ghost predicate Dense(disk: Disk, ino: map<nat, Inode>) {
    forall j {:trigger ino[j]} :: j in ino ==> NoHoles(disk, ino[j])
  }

  /** c with s put at off, made longer if need be. */
  function Patched<T>(c: seq<T>, off: nat, s: seq<T>): (r: seq<T>)
    requires off <= |c|
    ensures |r| == if off + |s| > |c| then off + |s| else |c|
    ensures forall k :: 0 <= k < |r| ==> r[k] == if off <= k < off + |s| then s[k - off] else c[k]
  {
    c[..off] + s + (if off + |s| < |c| then c[off + |s|..] else [])
  }

  /** The bytes [at, at + |s|) of file i are s; all other bytes of all files are what they were, and no
      file has lost a block or changed its size. */
  ghost predicate BytesAre(disk: Disk, ino: map<nat, Inode>, e: Disk, now: map<nat, Inode>, i: nat, at: nat,
                           s: seq<Byte>) {
    && now.Keys == ino.Keys
    && (forall j {:trigger now[j]} :: j in ino ==> SameBlocks(disk, ino[j], e, now[j]))
    && (forall j, off: nat {:trigger ByteAt(e, now[j], off)} :: j in ino ==>
          ByteAt(e, now[j], off) == if j == i && at <= off < at + |s| then s[off - at] else ByteAt(disk, ino[j], off))
  }

  ghost predicate SameBlocks(disk: Disk, x: Inode, e: Disk, y: Inode) {
    && y.(addrs := x.addrs) == x && |x.addrs| == NDIRECT + 1 && |y.addrs| == NDIRECT + 1
    && forall n {:trigger Slot(e, y, n)} :: 0 <= n < MAXFILE && Slot(disk, x, n) != 0 ==>
         Slot(e, y, n) == Slot(disk, x, n)
  }

  lemma LocatedBytes(l: Layout, disk: Disk, ino: map<nat, Inode>, use: map<nat, Use>, e: Disk, now: map<nat, Inode>,
                     use': map<nat, Use>, i: nat, n: nat, b: nat, at: nat)
    requires Inv(l, disk, ino, use) && Inv(l, e, now, use') && Located(disk, ino, use, e, now, use', i, n, b)
    ensures BytesAre(disk, ino, e, now, i, at, [])
  {
    forall j | j in ino
      ensures SameBlocks(disk, ino[j], e, now[j])
    {
      assert SlotsAre(disk, ino[j], e, now[j], if j == i then n else MAXFILE, b);
    }
    forall j, off: nat | j in ino
      ensures ByteAt(e, now[j], off) == ByteAt(disk, ino[j], off)
    {
      LocatedByte(l, disk, ino, use, e, now, use', i, n, b, j, off);
    }
  }

  lemma LocatedByte(l: Layout, disk: Disk, ino: map<nat, Inode>, use: map<nat, Use>, e: Disk, now: map<nat, Inode>,
                    use': map<nat, Use>, i: nat, n: nat, b: nat, j: nat, off: nat)
    requires Inv(l, disk, ino, use) && Inv(l, e, now, use') && Located(disk, ino, use, e, now, use', i, n, b)
    requires j in ino
    ensures ByteAt(e, now[j], off) == ByteAt(disk, ino[j], off)
  {
    var k := off / BSIZE;
    assert SlotsAre(disk, ino[j], e, now[j], if j == i then n else MAXFILE, b);
    assert FileOk(disk, use, j, ino[j]);
    if k < MAXFILE {
      assert PieceOk(disk, use, j, ino[j], k);
      var s := Slot(disk, ino[j], k);
      assert s != 0 ==> BlockOk(l, disk, use, s);
    }
  }

  /** Writing within one block of a file. */
  lemma PatchBlock(l: Layout, disk: Disk, ino: map<nat, Inode>, use: map<nat, Use>, i: nat, at: nat, s: seq<Byte>)
    requires Inv(l, disk, ino, use) && i in ino && |ino[i].addrs| == NDIRECT + 1 && at / BSIZE < MAXFILE
    requires Slot(disk, ino[i], at / BSIZE) != 0 && at % BSIZE + |s| <= BSIZE
    ensures var b := Slot(disk, ino[i], at / BSIZE);
            && b < |disk| && b in use && use[b] == Piece(i, at / BSIZE)
            && var e := disk[b := Patched(disk[b], at % BSIZE, s)];
               Inv(l, e, ino, use) && BytesAre(disk, ino, e, ino, i, at, s)
  {
    var n, b := at / BSIZE, Slot(disk, ino[i], at / BSIZE);
    assert FileOk(disk, use, i, ino[i]) && PieceOk(disk, use, i, ino[i], n);
    assert BlockOk(l, disk, use, b);
    var e := disk[b := Patched(disk[b], at % BSIZE, s)];
    WriteBlock(l, disk, ino, use, b, e[b]);
    forall j | j in ino
      ensures SameBlocks(disk, ino[j], e, ino[j])
    {
      assert FileOk(disk, use, j, ino[j]);
      SlotsKept(disk, e, use, j, ino[j]);
    }
    forall j, off: nat | j in ino
      ensures ByteAt(e, ino[j], off) == if j == i && at <= off < at + |s| then s[off - at]
                else ByteAt(disk, ino[j], off)
    {
      PatchByte(l, disk, ino, use, i, at, s, j, off);
    }
  }

  lemma PatchByte(l: Layout, disk: Disk, ino: map<nat, Inode>, use: map<nat, Use>, i: nat, at: nat, s: seq<Byte>,
                  j: nat, off: nat)
    requires Inv(l, disk, ino, use) && i in ino && |ino[i].addrs| == NDIRECT + 1 && at / BSIZE < MAXFILE && j in ino
    requires Slot(disk, ino[i], at / BSIZE) != 0 && at % BSIZE + |s| <= BSIZE
    requires var b := Slot(disk, ino[i], at / BSIZE); b < |disk| && b in use && use[b] == Piece(i, at / BSIZE)
    ensures var b := Slot(disk, ino[i], at / BSIZE);
            ByteAt(disk[b := Patched(disk[b], at % BSIZE, s)], ino[j], off) ==
              if j == i && at <= off < at + |s| then s[off - at] else ByteAt(disk, ino[j], off)
  {
    var b, k := Slot(disk, ino[i], at / BSIZE), off / BSIZE;
    var e := disk[b := Patched(disk[b], at % BSIZE, s)];
    assert FileOk(disk, use, j, ino[j]);
    SlotsKept(disk, e, use, j, ino[j]);
    assert off == k * BSIZE + off % BSIZE && at == at / BSIZE * BSIZE + at % BSIZE;
    if k < MAXFILE {
      assert PieceOk(disk, use, j, ino[j], k);
      var c := Slot(disk, ino[j], k);
      assert c != 0 ==> BlockOk(l, disk, use, c);
    }
  }

  lemma BytesTwice(disk: Disk, ino: map<nat, Inode>, e: Disk, now: map<nat, Inode>, f: Disk, later: map<nat, Inode>,
                   i: nat, at: nat, s: seq<Byte>, next: nat, t: seq<Byte>)
    requires BytesAre(disk, ino, e, now, i, at, s) && BytesAre(e, now, f, later, i, next, t) && next == at + |s|
    ensures BytesAre(disk, ino, f, later, i, at, s + t)
  {
    forall j | j in ino
      ensures SameBlocks(disk, ino[j], f, later[j])
    {
      assert SameBlocks(disk, ino[j], e, now[j]) && SameBlocks(e, now[j], f, later[j]);
    }
    forall j, off: nat | j in ino
      ensures ByteAt(f, later[j], off) == if j == i && at <= off < at + |s + t| then (s + t)[off - at]
                else ByteAt(disk, ino[j], off)
    {
      assert ByteAt(e, now[j], off) == if j == i && at <= off < at + |s| then s[off - at]
          else ByteAt(disk, ino[j], off);
    }
  }
}
