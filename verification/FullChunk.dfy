/** A file system on which one filewrite chunk logs all the blocks that an operation may. */
module FullChunk {
  import opened Params
  import opened DiskBytes
  import opened FileBlocks
  import opened FileContents
  import opened FileSystem
  import opened FileIO
  import opened WriteCosts
  import opened WriteRoom

  /** As mkfs lays it out for 24586 blocks and 2047 inodes: four bitmap blocks, from 161 on; data from 165 on. */
  const LAYOUT := Layout(24586, 165, 161, 33, 2047)

  /** Block 165 is the root directory's. After it, file 2 + w has the twelve blocks from 166 + 12 * w on, but in four
      files the last one is missing, and is the free block. */
  const FIRST := 166
  const FILES := 2035

  predicate Short(w: nat) {
    w == 0 || w == 668 || w == 1351 || w == 2034
  }

  function SizeOf(w: nat): nat {
    if w == 1 then 11 * BSIZE + 1 else if Short(w) then 11 * BSIZE else 12 * BSIZE
  }

  function AddrOf(w: nat, n: nat): nat {
    if n < 11 || (n == 11 && !Short(w)) then FIRST + 12 * w + n else 0
  }

  function InodeOf(i: nat): Inode {
    if 2 <= i < 2 + FILES then
      Inode(2, 1, SizeOf(i - 2), seq(NDIRECT + 1, n requires 0 <= n => AddrOf(i - 2, n)))
    else
      FirstInode(LAYOUT, i)
  }

  function UseOf(b: nat): Use {
    if b < FIRST then FirstUse(LAYOUT, b)
    else if (b - FIRST) % 12 == 11 && Short((b - FIRST) / 12) then Free
    else Piece(2 + (b - FIRST) / 12, (b - FIRST) % 12)
  }

  /** The bit that is clear in bitmap block k. */
  function Clear(k: nat): nat {
    if k == 0 then 177 else if k == 1 then 1 else if k == 2 then 5 else 9
  }

  function BlockOf(b: nat): Block {
    if 161 <= b < 165 then PutBit(Ones(), Clear(b - 161), false) else Zero()
  }

  function Image(): Disk {
    seq(LAYOUT.size, b requires 0 <= b => BlockOf(b))
  }

  function Inodes(): map<nat, Inode> {
    map i: nat | 1 <= i < LAYOUT.ninodes :: InodeOf(i)
  }

  ghost function Uses(): map<nat, Use> {
    map b: nat | 0 <= b < LAYOUT.size :: UseOf(b)
  }

  ghost function State(): Snap {
    Snap(Image(), Inodes(), Uses(), {})
  }

  lemma BlockIsOk(b: nat)
    requires b < LAYOUT.size
    ensures BlockOk(LAYOUT, Image(), Uses(), b)
  {
    BBlockIsMeta(LAYOUT, b);
    OnesBits(b % BPB);
    PutBitAt(Ones(), Clear(b / BPB), false, b % BPB);
    FreeOnes(b);
  }

  lemma UseIsOk(b: nat)
    requires b < LAYOUT.size
    ensures UseOk(Image(), Inodes(), Uses(), b)
  {
    if b > FIRST && Uses()[b] != Free {
      var w := (b - FIRST) / 12;
      assert b == FIRST + 12 * w + (b - FIRST) % 12;
      assert Slot(Image(), Inodes()[2 + w], (b - FIRST) % 12) == b;
    }
  }

  /** The free blocks are those whose bit is clear. */
  lemma FreeOnes(b: nat)
    requires b < LAYOUT.size
    ensures UseOf(b) == Free <==> b % BPB == Clear(b / BPB)
    ensures UseOf(b) == Free <==> b == 177 || b == 8193 || b == 16389 || b == 24585
  {
    if b >= FIRST {
      var w, n := (b - FIRST) / 12, (b - FIRST) % 12;
      assert b == FIRST + 12 * w + n;
    }
  }

  lemma FileIsOk(i: nat)
    requires 1 <= i < LAYOUT.ninodes
    ensures FileOk(Image(), Uses(), i, InodeOf(i)) && NoHoles(Image(), InodeOf(i))
  {
    var x := InodeOf(i);
    forall n | 0 <= n < MAXFILE
      ensures PieceOk(Image(), Uses(), i, x, n) && (n * BSIZE < x.size ==> Slot(Image(), x, n) != 0)
    {
      if 2 <= i < 2 + FILES && n < NDIRECT {
        PieceIsOk(i - 2, n);
      }
    }
  }

  lemma PieceIsOk(w: nat, n: nat)
    requires w < FILES && n < NDIRECT
    ensures n * BSIZE < SizeOf(w) <==> AddrOf(w, n) != 0
    ensures AddrOf(w, n) != 0 ==> AddrOf(w, n) < LAYOUT.size && UseOf(AddrOf(w, n)) == Piece(2 + w, n)
  {
    assert (12 * w + n) / 12 == w && (12 * w + n) % 12 == n;
  }

  /** A sound file system at rest, with a file of eleven blocks and a byte and four free blocks. */
  lemma StateIsOk()
    ensures Ok(LAYOUT, State()) && Settled(Uses()) && Dense(Image(), Inodes())
    ensures IBlock(LAYOUT, 3) < LAYOUT.bmapstart && FreeBlocks(Uses()) == {177, 8193, 16389, 24585}
  {
    forall b | 0 <= b < LAYOUT.size
      ensures BlockOk(LAYOUT, Image(), Uses(), b) && UseOk(Image(), Inodes(), Uses(), b)
    {
      BlockIsOk(b);
      UseIsOk(b);
    }
    forall i | i in Inodes()
      ensures FileOk(Image(), Uses(), i, Inodes()[i]) && NoHoles(Image(), Inodes()[i])
    {
      FileIsOk(i);
    }
    forall b | b in Uses()
      ensures Uses()[b] == Free <==> b in {177, 8193, 16389, 24585}
    {
      FreeOnes(b);
    }
  }

  /** Appending three blocks needs the four free blocks, for blocks 12, 13 and 14 and the indirect block. */
  lemma NeedsFour()
    ensures Enough(State(), 3, 11, 15) && LogsTen(LAYOUT, State(), 3, 11, 15)
  {
    StateIsOk();
    LastBlocks();
    assert Missing(State(), 3, 11, 15) == {12, 13, 14};
    FourBitmaps();
  }

  lemma LastBlocks()
    ensures HasFile(State(), 3) && TableOf(State(), 3) == 0
    ensures forall k: nat {:trigger At(State(), 3, k)} :: 11 <= k < 15 ==>
              At(State(), 3, k) == if k == 11 then 189 else 0
  {
  }

  lemma FourBitmaps()
    requires FreeBlocks(Uses()) == {177, 8193, 16389, 24585}
    ensures Scattered(LAYOUT, Uses())
  {
    var f: set<nat> := {177, 8193, 16389, 24585};
    assert f == FreeBlocks(Uses()) && Lowest(Uses(), f);
    assert Bits(LAYOUT, f) == {161, 162, 163, 164};
  }

  /** One transaction of filewrite that logs ten blocks. */
  method LogsTenBlocks(src: seq<Byte>) returns (fs: Fs)
    requires |src| == 3 * BSIZE
    ensures fresh(fs) && fs.Valid() && Settled(fs.use) && |fs.logged| == MAXOPBLOCKS
    ensures FileWritten(Image(), Inodes(), fs.disk, fs.ino, 3, 11 * BSIZE + 1, src)
  {
    StateIsOk();
    NeedsFour();
    fs := new Fs.Mount(LAYOUT, Image(), Inodes(), Uses());
    assert Look(fs) == State();
    Append(fs, src);
  }

  /** The chunk, which appends three blocks. */
  method Append(fs: Fs, src: seq<Byte>)
    requires fs.Valid() && fs.l == LAYOUT && Look(fs) == State() && |src| == 3 * BSIZE
    requires Dense(Image(), Inodes()) && IBlock(LAYOUT, 3) < LAYOUT.bmapstart && Settled(Uses())
    requires Enough(State(), 3, 11, 15) && LogsTen(LAYOUT, State(), 3, 11, 15)
    modifies fs
    ensures fs.Valid() && Settled(fs.use) && |fs.logged| == MAXOPBLOCKS
    ensures FileWritten(Image(), Inodes(), fs.disk, fs.ino, 3, 11 * BSIZE + 1, src)
  {
    var off0 := 11 * BSIZE + 1;
    assert Inodes()[3].size == off0;
    NothingWritten(fs.disk, fs.ino, 3, off0);
    assert BlockCount(off0, 3 * BSIZE) == 4 && off0 / BSIZE == 11;
    var r, off, done;
    ghost var a, b;
    assert src[..0] == [];
    r, off, done, a, b := WriteChunk(fs, 3, off0, 3 * BSIZE, src, 0, Image(), Inodes(), off0);
    assert src[..3 * BSIZE] == src;
  }
}
