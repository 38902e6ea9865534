/** File operations under crashes: an operation's transaction takes the disk from the file system before it to the one
    after it, or not at all. */
module FileCrash {
  import opened Params
  import opened DiskBytes
  import opened FileBlocks
  import opened FileContents
  import opened FileSystem
  import opened FileIO
  import opened WriteCosts
  import opened TruncCosts
  import opened RedoLog

  const INODEWORDS := 16

  // ---------- a file system as an image of the disk ----------

  function Words(b: Block): WordBlock {
    seq(BLOCKWORDS, n requires 0 <= n < BLOCKWORDS => Word(b, n))
  }

  /** Word k of an inode on disk: type and major, minor and link count, size, block numbers. */
  function InodeWord(dino: map<nat, Inode>, i: nat, k: nat): int {
    if i !in dino || k >= |dino[i].addrs| + 3 then 0
    else if k == 0 then dino[i].kind
    else if k == 1 then dino[i].nlink * 0x1_0000
    else if k == 2 then dino[i].size
    else dino[i].addrs[k - 3]
  }

  function InodeBlock(dino: map<nat, Inode>, n: nat): WordBlock {
    seq(BLOCKWORDS, k requires 0 <= k => InodeWord(dino, n * IPB + k / INODEWORDS, k % INODEWORDS))
  }

  /** What block b of the disk holds outside the log. */
  function HomeBlock(l: Layout, disk: Disk, dino: map<nat, Inode>, b: nat): WordBlock
    requires b < |disk|
  {
    if l.inodestart <= b < l.bmapstart then InodeBlock(dino, b - l.inodestart) else Words(disk[b])
  }

  /** The home blocks of image d are this file system. */
  ghost predicate Shows(l: Layout, start: nat, d: Image, disk: Disk, dino: map<nat, Inode>) {
    && |d| == |disk|
    && forall b: nat {:trigger d[b]} :: b < |d| && IsHome(start, |d|, b) ==> d[b] == HomeBlock(l, disk, dino, b)
  }

  lemma LowByte(a: Byte, x: nat, b: Byte, y: nat)
    requires a + 256 * x == b + 256 * y
    ensures a == b && x == y
  {
  }

  /** A word determines its bytes. */
  lemma SameWord(a: Block, b: Block, n: nat)
    requires n < NINDIRECT && Word(a, n) == Word(b, n)
    ensures forall k :: 4 * n <= k < 4 * n + 4 ==> a[k] == b[k]
  {
    var x0, x1, x2, x3: nat := a[4 * n], a[4 * n + 1], a[4 * n + 2], a[4 * n + 3];
    var y0, y1, y2, y3: nat := b[4 * n], b[4 * n + 1], b[4 * n + 2], b[4 * n + 3];
    LowByte(x0, x1 + 256 * (x2 + 256 * x3), y0, y1 + 256 * (y2 + 256 * y3));
    LowByte(x1, x2 + 256 * x3, y1, y2 + 256 * y3);
    LowByte(x2, x3, y2, y3);
  }

  lemma SameBlock(a: Block, b: Block)
    requires Words(a) == Words(b)
    ensures a == b
  {
    forall k | 0 <= k < BSIZE
      ensures a[k] == b[k]
    {
      assert Words(a)[k / 4] == Word(a, k / 4) && Words(b)[k / 4] == Word(b, k / 4);
      SameWord(a, b, k / 4);
    }
  }

  /** The inodes in a block of the disk are determined by it. */
  lemma SameInode(x: map<nat, Inode>, y: map<nat, Inode>, i: nat)
    requires InodeBlock(x, i / IPB) == InodeBlock(y, i / IPB) && i in x && i in y
    requires |x[i].addrs| == |y[i].addrs| == NDIRECT + 1
    ensures x[i] == y[i]
  {
    forall k | 0 <= k < INODEWORDS
      ensures InodeWord(x, i, k) == InodeWord(y, i, k)
    {
      var w := i % IPB * INODEWORDS + k;
      assert i / IPB * IPB + w / INODEWORDS == i && w % INODEWORDS == k;
      assert InodeBlock(x, i / IPB)[w] == InodeBlock(y, i / IPB)[w];
    }
    assert InodeWord(x, i, 0) == x[i].kind && InodeWord(x, i, 1) == x[i].nlink * 0x1_0000;
    assert InodeWord(y, i, 0) == y[i].kind && InodeWord(y, i, 1) == y[i].nlink * 0x1_0000;
    assert InodeWord(x, i, 2) == x[i].size && InodeWord(y, i, 2) == y[i].size;
    forall k | 0 <= k < NDIRECT + 1
      ensures x[i].addrs[k] == y[i].addrs[k]
    {
      assert InodeWord(x, i, k + 3) == x[i].addrs[k] && InodeWord(y, i, k + 3) == y[i].addrs[k];
    }
  }

  /** An image shows one file system only: what is on disk determines the contents of every block and every inode. */
  lemma ShowsOne(l: Layout, start: nat, d: Image, disk: Disk, x: map<nat, Inode>, disk': Disk, y: map<nat, Inode>,
                 b: nat, i: nat)
    requires LogFirst(l, start) && Shows(l, start, d, disk, x) && Shows(l, start, d, disk', y) && b < |d|
    ensures IsHome(start, |d|, b) && !(l.inodestart <= b < l.bmapstart) ==> disk[b] == disk'[b]
    ensures b == IBlock(l, i) < l.bmapstart && i in x && i in y && |x[i].addrs| == |y[i].addrs| == NDIRECT + 1 ==>
              x[i] == y[i]
  {
    if IsHome(start, |d|, b) {
      assert d[b] == HomeBlock(l, disk, x, b) && d[b] == HomeBlock(l, disk', y, b);
      if !(l.inodestart <= b < l.bmapstart) {
        SameBlock(disk[b], disk'[b]);
      }
    }
    if b == IBlock(l, i) < l.bmapstart && i in x && i in y && |x[i].addrs| == |y[i].addrs| == NDIRECT + 1 {
      SameInode(x, y, i);
    }
  }

  /** The log comes before the inodes, and they before the bitmap. */
  predicate LogFirst(l: Layout, start: nat) {
    LayoutOk(l) && start + LOGBLOCKS < l.inodestart <= l.bmapstart
  }

  // ---------- one transaction ----------

  /** The log header's block numbers, in whatever order they were logged. */
  ghost predicate Lists(blocks: seq<nat>, g: set<nat>) {
    && (forall x :: x in blocks <==> x in g)
    && (forall j, k :: 0 <= j < k < |blocks| ==> blocks[j] != blocks[k])
  }

  lemma {:induction false} ListSize(blocks: seq<nat>, g: set<nat>)
    requires Lists(blocks, g)
    ensures |blocks| == |g|
    decreases |blocks|
  {
    if blocks != [] {
      var x := blocks[0];
      forall y
        ensures y in blocks[1..] <==> y in g - {x}
      {
      }
      ListSize(blocks[1..], g - {x});
    }
  }

  ghost function NewData(l: Layout, disk: Disk, dino: map<nat, Inode>, blocks: seq<nat>): (data: seq<WordBlock>)
    requires forall k :: 0 <= k < |blocks| ==> blocks[k] < |disk|
    ensures |data| == |blocks|
  {
    seq(|blocks|, k requires 0 <= k < |blocks| => HomeBlock(l, disk, dino, blocks[k]))
  }

  /** The file systems before and after, and the blocks logged in between. */
  datatype Op = Op(disk: Disk, dino: map<nat, Inode>, disk': Disk, dino': map<nat, Inode>, logged: set<nat>)

  /** Everything that differs has been logged; what has been logged lies behind the log area and fits. */
  ghost predicate LogsAll(l: Layout, start: nat, o: Op) {
    && |o.disk'| == |o.disk| && |o.logged| <= LOGBLOCKS
    && (forall x {:trigger x in o.logged} :: x in o.logged ==> start + LOGBLOCKS < x < |o.disk|)
    && (forall b: nat {:trigger HomeBlock(l, o.disk', o.dino', b)} :: b < |o.disk| && b !in o.logged ==>
          HomeBlock(l, o.disk', o.dino', b) == HomeBlock(l, o.disk, o.dino, b))
  }

  /** Whatever crashes the commit of the operation on disk d after k of its writes, and the recoveries that follow:
      the disk shows the file system as it was before the operation, or as it is after it. */
  ghost predicate Survives(l: Layout, start: nat, d: Image, o: Op, blocks: seq<nat>, k: nat, cuts: seq<nat>) {
    && (forall j :: 0 <= j < |blocks| ==> blocks[j] < |o.disk'|)
    && var data := NewData(l, o.disk', o.dino', blocks);
       && Transaction(start, d, blocks, data) && k <= CommitWrites(|blocks|)
       && var e := Recovered(start, Crashes(start, CommitDisk(start, d, blocks, data, k), cuts));
          && Count(e[start]) == 0
          && if k <= |blocks| then Shows(l, start, e, o.disk, o.dino) else Shows(l, start, e, o.disk', o.dino')
  }

  lemma OpSurvives(l: Layout, start: nat, d: Image, o: Op, blocks: seq<nat>, k: nat, cuts: seq<nat>)
    requires HasLog(start, d) && Count(d[start]) == 0 && Shows(l, start, d, o.disk, o.dino)
    requires LogsAll(l, start, o) && Lists(blocks, o.logged) && k <= CommitWrites(|blocks|)
    ensures Survives(l, start, d, o, blocks, k, cuts)
  {
    ListSize(blocks, o.logged);
    assert forall j :: 0 <= j < |blocks| ==> blocks[j] in o.logged;
    var data := NewData(l, o.disk', o.dino', blocks);
    AllOrNothing(start, d, blocks, data, k, cuts);
    var e := Recovered(start, Crashes(start, CommitDisk(start, d, blocks, data, k), cuts));
    if k > |blocks| {
      NewShows(l, start, d, e, o, blocks);
    }
  }

  lemma NewShows(l: Layout, start: nat, d: Image, e: Image, o: Op, blocks: seq<nat>)
    requires Shows(l, start, d, o.disk, o.dino) && LogsAll(l, start, o) && Lists(blocks, o.logged) && |e| == |d|
    requires forall j :: 0 <= j < |blocks| ==> blocks[j] < |o.disk'|
    requires HasNew(d, e, blocks, NewData(l, o.disk', o.dino', blocks)) && KeepsOthers(start, d, e, blocks)
    ensures Shows(l, start, e, o.disk', o.dino')
  {
    forall b: nat | b < |e| && IsHome(start, |e|, b)
      ensures e[b] == HomeBlock(l, o.disk', o.dino', b)
    {
      if b in blocks {
        var j :| 0 <= j < |blocks| && blocks[j] == b;
        assert NewData(l, o.disk', o.dino', blocks)[j] == HomeBlock(l, o.disk', o.dino', b);
      } else {
        assert d[b] == HomeBlock(l, o.disk, o.dino, b);
      }
    }
  }

  // ---------- which operations log everything ----------

  /** Only the block of inode i depends on inode i. */
  lemma OtherInodes(l: Layout, dino: map<nat, Inode>, dino': map<nat, Inode>, i: nat, b: nat)
    requires dino'.Keys == dino.Keys && i in dino && dino' == dino[i := dino'[i]]
    requires l.inodestart <= b && b != IBlock(l, i)
    ensures InodeBlock(dino', b - l.inodestart) == InodeBlock(dino, b - l.inodestart)
  {
    var n := b - l.inodestart;
    forall k | 0 <= k < BLOCKWORDS
      ensures InodeBlock(dino', n)[k] == InodeBlock(dino, n)[k]
    {
      assert (n * IPB + k / INODEWORDS) / IPB == n;
    }
  }

  lemma LogsEverything(l: Layout, start: nat, o: Op, i: nat)
    requires LogFirst(l, start) && |o.disk| == l.size && IBlock(l, i) < l.bmapstart && |o.logged| <= LOGBLOCKS
    requires OnlyLogged(o.disk, o.disk', o.logged)
    requires || o.dino' == o.dino
             || (i in o.dino && i in o.dino' && o.dino' == o.dino[i := o.dino'[i]] && IBlock(l, i) in o.logged)
    requires forall x :: x in o.logged ==> x == IBlock(l, i) || l.bmapstart <= x < l.size
    ensures LogsAll(l, start, o)
  {
    forall b: nat | b < |o.disk| && b !in o.logged
      ensures HomeBlock(l, o.disk', o.dino', b) == HomeBlock(l, o.disk, o.dino, b)
    {
      if l.inodestart <= b < l.bmapstart && o.dino' != o.dino {
        OtherInodes(l, o.dino, o.dino', i, b);
      }
    }
  }

  /** One transaction of filewrite. d is the disk when it is committed; the blocks are those it has logged. */
  method ChunkSurvives(fs: Fs, i: nat, off: nat, n: nat, src: seq<Byte>, ghost start: nat, ghost d: Image)
    returns (r: int, ghost o: Op)
    requires fs.Valid() && i in fs.ino && Dense(fs.disk, fs.ino) && off <= fs.ino[i].size && n <= MAXCHUNK
    requires LogFirst(fs.l, start) && IBlock(fs.l, i) < fs.l.bmapstart && i in fs.dino
    requires HasLog(start, d) && Count(d[start]) == 0 && Shows(fs.l, start, d, fs.disk, fs.dino)
    modifies fs
    ensures fs.Valid() && o == Op(old(fs.disk), old(fs.dino), fs.disk, fs.dino, fs.logged) && |fs.logged| <= MAXOPBLOCKS
    ensures forall blocks: seq<nat>, k: nat, cuts: seq<nat> {:trigger Survives(fs.l, start, d, o, blocks, k, cuts)} ::
              Lists(blocks, fs.logged) && k <= CommitWrites(|blocks|) ==> Survives(fs.l, start, d, o, blocks, k, cuts)
  {
    ghost var disk0, dino0, ino0 := fs.disk, fs.dino, fs.ino;
    NothingWritten(fs.disk, fs.ino, i, off);
    assert src[..0] == [];
    var off', done;
    ghost var a, b;
    r, off', done, a, b := WriteChunk(fs, i, off, n, src, 0, disk0, ino0, off);
    o := Op(disk0, dino0, fs.disk, fs.dino, fs.logged);
    LogsEverything(fs.l, start, o, i);
    forall blocks: seq<nat>, k: nat, cuts: seq<nat> | Lists(blocks, fs.logged) && k <= CommitWrites(|blocks|)
      ensures Survives(fs.l, start, d, o, blocks, k, cuts)
    {
      OpSurvives(fs.l, start, d, o, blocks, k, cuts);
    }
  }

  /** The transaction in which the last iput frees a file. */
  method FreeingSurvives(fs: Fs, i: nat, ghost start: nat, ghost d: Image) returns (ghost o: Op)
    requires fs.Valid() && i in fs.ino && |fs.ino[i].addrs| == NDIRECT + 1 && i in fs.dino && fs.ino[i].nlink == 0
    requires LogFirst(fs.l, start) && IBlock(fs.l, i) < fs.l.bmapstart && Bitmaps(fs.l) < MAXOPBLOCKS
    requires HasLog(start, d) && Count(d[start]) == 0 && Shows(fs.l, start, d, fs.disk, fs.dino)
    modifies fs
    ensures fs.Valid() && o == Op(old(fs.disk), old(fs.dino), fs.disk, fs.dino, fs.logged) && |fs.logged| <= MAXOPBLOCKS
    ensures forall blocks: seq<nat>, k: nat, cuts: seq<nat> {:trigger Survives(fs.l, start, d, o, blocks, k, cuts)} ::
              Lists(blocks, fs.logged) && k <= CommitWrites(|blocks|) ==> Survives(fs.l, start, d, o, blocks, k, cuts)
  {
    fs.logged := {};
    ghost var s, dino0 := Look(fs), fs.dino;
    FewBitmaps(fs.l, s, i);
    FreedAbove(fs.l, s, i);
    fs.IPut(i, true);
    assert fs.logged == Logs(fs.l, s.use, i);
    o := Op(s.disk, dino0, fs.disk, fs.dino, fs.logged);
    LogsEverything(fs.l, start, o, i);
    forall blocks: seq<nat>, k: nat, cuts: seq<nat> | Lists(blocks, fs.logged) && k <= CommitWrites(|blocks|)
      ensures Survives(fs.l, start, d, o, blocks, k, cuts)
    {
      OpSurvives(fs.l, start, d, o, blocks, k, cuts);
    }
  }

  lemma FreedAbove(l: Layout, s: Snap, i: nat)
    requires Ok(l, s)
    ensures forall x :: x in Logs(l, s.use, i) ==> x == IBlock(l, i) || l.bmapstart <= x < l.size
  {
    forall x | x in Bits(l, BlocksOf(s.use, i))
      ensures l.bmapstart <= x < l.size
    {
      var b :| b in BlocksOf(s.use, i) && x == BBlock(l, b);
      BBlockIsMeta(l, b);
    }
  }
}
