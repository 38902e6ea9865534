/** The redo log over the buffer cache: log_write, commit and recovery, block write by block write. */
module Log {
  import opened Params
  import opened RedoLog
  import opened BufferCache
  import opened LogReservation

  /** A reader sees what is on disk, except in the given blocks. */
  ghost predicate CleanBut(view: Image, disk: Image, blocks: seq<nat>) {
    |view| == |disk| && forall b :: 0 <= b < |disk| && view[b] != disk[b] ==> b in blocks
  }

  /** What the given blocks hold in memory. */
  ghost function Snapshot(view: Image, blocks: seq<nat>): (r: seq<WordBlock>)
    requires forall i :: 0 <= i < |blocks| ==> blocks[i] < |view|
    ensures |r| == |blocks|
  {
    seq(|blocks|, i requires 0 <= i < |blocks| => view[blocks[i]])
  }

  /** From position w on, the write history lists the images of write_log. */
  ghost predicate LogTrace(writes: seq<Image>, w: nat, start: nat, d: Image, data: seq<WordBlock>) {
    && HasLog(start, d) && w <= |writes| <= w + |data| && |data| <= LOGBLOCKS
    && forall j :: w <= j < |writes| ==> writes[j] == Logged(start, d, data, j - w + 1)
  }

  lemma LogTraceGrows(writes: seq<Image>, w: nat, start: nat, d: Image, data: seq<WordBlock>, was: Image, e: Image)
    requires LogTrace(writes, w, start, d, data) && |writes| < w + |data|
    requires was == Logged(start, d, data, |writes| - w) && e == was[start + |writes| - w + 1 := data[|writes| - w]]
    ensures e == Logged(start, d, data, |writes| - w + 1)
    ensures LogTrace(writes + [e], w, start, d, data)
  {
  }

  /** From position w on, the write history lists the images of install_trans. */
  ghost predicate InstallTrace(writes: seq<Image>, w: nat, start: nat, d: Image) {
    && WellFormed(start, d) && w <= |writes| <= w + Count(d[start])
    && forall j :: w <= j < |writes| ==> writes[j] == Installed(start, d, j - w + 1)
  }

  lemma InstallTraceGrows(writes: seq<Image>, w: nat, start: nat, d: Image, was: Image, e: Image)
    requires InstallTrace(writes, w, start, d) && |writes| < w + Count(d[start])
    requires was == Installed(start, d, |writes| - w)
    requires e == was[Target(d[start], |writes| - w) := was[start + |writes| - w + 1]]
    ensures e == Installed(start, d, |writes| - w + 1)
    ensures InstallTrace(writes + [e], w, start, d)
  {
  }

  /** What is still only in memory, and who is still pinned, after k of the blocks bs are installed. */
  ghost function Pending(recovering: bool, bs: seq<nat>, k: nat): seq<nat>
    requires k <= |bs|
  {
    if recovering then [] else bs[k..]
  }

  ghost function Unpinned(recovering: bool, refs: multiset<nat>, bs: seq<nat>, k: nat): multiset<nat>
    requires k <= |bs|
  {
    if recovering then refs else refs - multiset(bs[..k])
  }

  lemma Prefixes(bs: seq<nat>, refs: multiset<nat>, recovering: bool)
    ensures Pending(recovering, bs, 0) == (if recovering then [] else bs) && Pending(recovering, bs, |bs|) == []
    ensures Unpinned(recovering, refs, bs, 0) == refs
    ensures Unpinned(recovering, refs, bs, |bs|) == if recovering then refs else refs - multiset(bs)
  {
    assert bs[..0] == [] && bs[..|bs|] == bs;
  }

  /** The next block to install is still pinned; once it is unpinned the rest remain. */
  lemma NextPin(bs: seq<nat>, k: nat, refs: multiset<nat>, recovering: bool)
    requires k < |bs|
    requires !recovering ==> bs[k] in refs && forall i, j :: 0 <= i < j < |bs| ==> bs[i] != bs[j]
    ensures var m, l := Unpinned(recovering, refs, bs, k), Unpinned(recovering, refs, bs, k + 1);
            && |m| <= |refs|
            && l == (if recovering then m else m - multiset{bs[k]})
            && (!recovering ==> bs[k] in m)
    ensures forall b :: b in Pending(recovering, bs, k) ==>
              b in bs && (b == bs[k] || b in Pending(recovering, bs, k + 1))
  {
    if !recovering {
      assert bs[k] !in bs[..k];
      assert bs[..k + 1] == bs[..k] + [bs[k]];
      assert bs[k..] == [bs[k]] + bs[k + 1..];
      assert refs == (refs - multiset(bs[..k])) + (refs * multiset(bs[..k]));
    }
  }

  /** The write history is base followed by a prefix of the images of commit. */
  ghost predicate CommitTrace(writes: seq<Image>, base: seq<Image>, start: nat, d: Image, blocks: seq<nat>,
                              data: seq<WordBlock>) {
    && Transaction(start, d, blocks, data)
    && base <= writes && |writes| <= |base| + CommitWrites(|blocks|)
    && forall j :: |base| <= j < |writes| ==> writes[j] == CommitDisk(start, d, blocks, data, j - |base| + 1)
  }

  lemma CommitTraceLogged(writes: seq<Image>, base: seq<Image>, start: nat, d: Image, blocks: seq<nat>,
                          data: seq<WordBlock>)
    requires Transaction(start, d, blocks, data) && base <= writes && LogTrace(writes, |base|, start, d, data)
    ensures CommitTrace(writes, base, start, d, blocks, data)
  {
  }

  lemma SealedTargets(start: nat, d: Image, blocks: seq<nat>, data: seq<WordBlock>)
    requires Transaction(start, d, blocks, data) && |blocks| > 0
    ensures var s := Sealed(start, d, blocks, data);
            && s == CommitDisk(start, d, blocks, data, |blocks| + 1) && Installed(start, s, 0) == s
            && forall i :: 0 <= i < |blocks| ==> Target(s[start], i) == blocks[i]
  {
    SealedHeader(start, d, blocks, data);
  }

  lemma CommitTraceSealed(writes: seq<Image>, base: seq<Image>, start: nat, d: Image, blocks: seq<nat>,
                          data: seq<WordBlock>, e: Image)
    requires CommitTrace(writes, base, start, d, blocks, data) && |writes| == |base| + |blocks| && |blocks| > 0
    requires e == Logged(start, d, data, |data|)[start := PutHeader(d[start], blocks)]
    ensures e == CommitDisk(start, d, blocks, data, |blocks| + 1)
    ensures CommitTrace(writes + [e], base, start, d, blocks, data)
  {
    SealedTargets(start, d, blocks, data);
  }

  lemma CommitTraceInstalled(writes: seq<Image>, now: seq<Image>, base: seq<Image>, start: nat, d: Image,
                             blocks: seq<nat>, data: seq<WordBlock>)
    requires CommitTrace(writes, base, start, d, blocks, data) && |writes| == |base| + |blocks| + 1 && writes <= now
    requires InstallTrace(now, |writes|, start, Sealed(start, d, blocks, data)) && |blocks| > 0
    ensures CommitTrace(now, base, start, d, blocks, data)
    ensures Installed(start, Sealed(start, d, blocks, data), |blocks|) ==
              CommitDisk(start, d, blocks, data, 2 * |blocks| + 1)
  {
    var s := Sealed(start, d, blocks, data);
    forall j | |base| <= j < |now|
      ensures now[j] == CommitDisk(start, d, blocks, data, j - |base| + 1)
    {
      if j < |writes| {
        assert now[j] == writes[j];
      } else {
        InstallIsCommit(start, d, blocks, data, j - |writes| + 1);
      }
    }
    InstallIsCommit(start, d, blocks, data, |blocks|);
  }

  lemma InstallIsCommit(start: nat, d: Image, blocks: seq<nat>, data: seq<WordBlock>, k: nat)
    requires Transaction(start, d, blocks, data) && k <= |blocks| && |blocks| > 0
    ensures Installed(start, Sealed(start, d, blocks, data), k) == CommitDisk(start, d, blocks, data, |blocks| + 1 + k)
  {
  }

  lemma CommitTraceDone(writes: seq<Image>, base: seq<Image>, start: nat, d: Image, blocks: seq<nat>,
                        data: seq<WordBlock>, e: Image)
    requires CommitTrace(writes, base, start, d, blocks, data) && |blocks| > 0 && |writes| == |base| + 2 * |blocks| + 1
    requires var c := CommitDisk(start, d, blocks, data, 2 * |blocks| + 1); e == c[start := PutHeader(c[start], [])]
    ensures e == CommitDisk(start, d, blocks, data, CommitWrites(|blocks|))
    ensures CommitTrace(writes + [e], base, start, d, blocks, data)
  {
    InstallIsCommit(start, d, blocks, data, |blocks|);
  }

  ghost predicate SameHomes(start: nat, v: Image, w: Image) {
    |v| == |w| && forall b :: 0 <= b < |v| && IsHome(start, |v|, b) ==> v[b] == w[b]
  }

  /** What readers saw before a commit is what is on disk after it. */
  lemma CommittedView(start: nat, d: Image, view: Image, blocks: seq<nat>, data: seq<WordBlock>, e: Image)
    requires Transaction(start, d, blocks, data) && |d| == |e| && CleanBut(view, d, blocks)
    requires data == Snapshot(view, blocks)
    requires HasNew(d, e, blocks, data) && KeepsOthers(start, d, e, blocks)
    ensures SameHomes(start, view, e)
  {
  }

  lemma CommitCompletes(start: nat, d: Image, view: Image, blocks: seq<nat>, data: seq<WordBlock>, e: Image)
    requires Transaction(start, d, blocks, data) && CleanBut(view, d, blocks) && |blocks| > 0
    requires data == Snapshot(view, blocks)
    requires e == CommitDisk(start, d, blocks, data, CommitWrites(|blocks|))
    ensures SameHomes(start, view, e) && Count(e[start]) == 0
  {
    assert e == Recovered(start, Sealed(start, d, blocks, data));
    SealedRecovers(start, d, blocks, data);
    CommittedView(start, d, view, blocks, data, e);
  }

  lemma NothingToCommit(start: nat, d: Image, view: Image, writes: seq<Image>, bs: seq<nat>, data: seq<WordBlock>,
                        refs: multiset<nat>)
    requires bs == [] && data == [] && HasLog(start, d) && Count(d[start]) == 0 && CleanBut(view, d, bs)
    ensures CommitTrace(writes, writes, start, d, bs, data)
    ensures view == d && refs - multiset(bs) == refs
  {
  }

  lemma FullCannotRead(c: Cache, blocks: seq<nat>, x: nat)
    requires c.Valid() && |blocks| == NBUF && Distinct(blocks) && x !in blocks
    requires forall i :: 0 <= i < |blocks| ==> blocks[i] in c.refs
    ensures !CanRead(c, x)
  {
    AllReferenced(c.buf[..], c.slot, c.refs, c.view, c.disk, blocks);
  }

  // ---------- the cache as its clients use it ----------

  /** Buffer b is held and shows the contents of block x. */
  ghost predicate Loaded(c: Cache, b: nat, x: nat)
    reads c, c.buf
  {
    && b < NBUF < c.buf.Length && x < |c.view|
    && c.buf[b].dev == ROOTDEV && c.buf[b].blockno == x
    && c.buf[b].valid && c.buf[b].data == c.view[x]
    && c.buf[b].refcnt == c.refs[x] > 0
  }

  ghost predicate CanRead(c: Cache, x: nat)
    reads c, c.buf
  {
    x in c.slot || exists i :: Unreferenced(c.buf[..], i)
  }

  method Read(c: Cache, x: nat, ghost i: nat, ghost y: nat) returns (ok: bool, b: nat)
    requires c.Valid() && x < |c.disk|
    modifies c, c.buf
    ensures c.Valid() && c.disk == old(c.disk) && c.view == old(c.view) && c.writes == old(c.writes)
    ensures ok == old(CanRead(c, x))
    ensures |old(c.refs)| < NBUF || x in old(c.refs) ==> ok
    ensures c.refs == if ok then old(c.refs) + multiset{x} else old(c.refs)
    ensures ok ==> Loaded(c, b, x)
    ensures old(Loaded(c, i, y)) ==> Loaded(c, i, y)
  {
    if |c.refs| < NBUF {
      FewReferences(c.buf[..], c.slot, c.refs, c.view, c.disk);
    }
    ok, b := c.BRead(x);
    if ok {
      assert Placed(c.buf[..], b, c.slot, c.refs);
    }
    if old(Loaded(c, i, y)) {
      assert Placed(old(c.buf[..]), i, old(c.slot), old(c.refs));
      assert Cached(old(c.buf[..]), y, old(c.slot), c.view, c.disk);
      assert Placed(c.buf[..], i, c.slot, c.refs);
    }
  }

  /** memmove into a held buffer. */
  method Store(c: Cache, b: nat, ghost x: nat, data: WordBlock, ghost i: nat, ghost y: nat)
    requires c.Valid() && Loaded(c, b, x)
    modifies c, c.buf
    ensures c.Valid() && c.disk == old(c.disk) && c.writes == old(c.writes) && c.refs == old(c.refs)
    ensures c.slot == old(c.slot) && x < |old(c.view)| && c.view == old(c.view)[x := data]
    ensures Loaded(c, b, x)
    ensures old(Loaded(c, i, y)) ==> Loaded(c, i, y)
  {
    assert Placed(c.buf[..], b, c.slot, c.refs);
    c.Modify(b, data);
    if old(Loaded(c, i, y)) {
      assert Placed(old(c.buf[..]), i, c.slot, c.refs);
      assert Placed(c.buf[..], i, c.slot, c.refs);
    }
  }

  method Write(c: Cache, b: nat, ghost x: nat, ghost i: nat, ghost y: nat)
    requires c.Valid() && Loaded(c, b, x)
    modifies c
    ensures c.Valid() && c.view == old(c.view) && c.refs == old(c.refs) && c.slot == old(c.slot)
    ensures Loaded(c, b, x)
    ensures x < |old(c.disk)| && x < |c.view| && c.disk == old(c.disk)[x := c.view[x]]
    ensures c.writes == old(c.writes) + [c.disk]
    ensures old(Loaded(c, i, y)) ==> Loaded(c, i, y)
  {
    c.BWrite(b);
  }

  method Release(c: Cache, b: nat, ghost x: nat, ghost i: nat, ghost y: nat)
    requires c.Valid() && Loaded(c, b, x)
    requires c.refs[x] > 1 || c.view[x] == c.disk[x]
    modifies c, c.buf
    ensures c.Valid() && c.disk == old(c.disk) && c.view == old(c.view) && c.writes == old(c.writes)
    ensures c.refs == old(c.refs) - multiset{x}
    ensures old(Loaded(c, i, y)) && (y != x || old(c.refs)[x] > 1) ==> Loaded(c, i, y)
  {
    c.BRelse(b);
    if old(Loaded(c, i, y)) && (y != x || old(c.refs)[x] > 1) {
      assert Placed(old(c.buf[..]), i, old(c.slot), old(c.refs));
      assert Placed(c.buf[..], i, c.slot, c.refs);
    }
  }

  method Unpin(c: Cache, b: nat, ghost x: nat, ghost i: nat, ghost y: nat)
    requires c.Valid() && Loaded(c, b, x) && c.refs[x] > 1
    modifies c, c.buf
    ensures c.Valid() && c.disk == old(c.disk) && c.view == old(c.view) && c.writes == old(c.writes)
    ensures c.refs == old(c.refs) - multiset{x}
    ensures Loaded(c, b, x)
    ensures old(Loaded(c, i, y)) ==> Loaded(c, i, y)
  {
    c.BUnpin(b);
    if old(Loaded(c, i, y)) {
      assert Placed(old(c.buf[..]), i, old(c.slot), old(c.refs));
      assert Placed(c.buf[..], i, c.slot, c.refs);
    }
  }

  method Pin(c: Cache, b: nat, ghost x: nat)
    requires c.Valid() && Loaded(c, b, x)
    modifies c, c.buf
    ensures c.Valid() && c.disk == old(c.disk) && c.view == old(c.view) && c.writes == old(c.writes)
    ensures c.refs == old(c.refs) + multiset{x} && Loaded(c, b, x)
  {
    c.BPin(b);
    assert Placed(c.buf[..], b, c.slot, c.refs);
  }

  /** bread x, then y; ok is false where a bread panics. */
  method ReadTwo(c: Cache, x: nat, y: nat) returns (ok: bool, bi: nat, bj: nat)
    requires c.Valid() && x < |c.disk| && y < |c.disk|
    modifies c, c.buf
    ensures c.Valid() && c.disk == old(c.disk) && c.view == old(c.view) && c.writes == old(c.writes)
    ensures ok ==> old(CanRead(c, x)) && Loaded(c, bi, x) && Loaded(c, bj, y) && c.refs == old(c.refs) + multiset{x, y}
    ensures |old(c.refs)| + 1 < NBUF ==> ok
    ensures y in old(c.refs) ==> ok == old(CanRead(c, x))
    ensures y in old(c.refs) && |old(c.refs)| < NBUF ==> ok
  {
    ok, bi := Read(c, x, 0, 0);
    bj := 0;
    if ok {
      ok, bj := Read(c, y, bi, x);
    }
  }

  /** Copy the contents of block x over block y, in memory and on disk. */
  method Copy(c: Cache, bi: nat, ghost x: nat, bj: nat, ghost y: nat)
    requires c.Valid() && Loaded(c, bi, x) && Loaded(c, bj, y)
    modifies c, c.buf
    ensures c.Valid() && c.refs == old(c.refs) && Loaded(c, bi, x) && Loaded(c, bj, y)
    ensures y < |old(c.disk)| == |old(c.view)|
    ensures c.view == old(c.view)[y := old(c.view)[x]]
    ensures c.disk == old(c.disk)[y := old(c.view)[x]]
    ensures c.writes == old(c.writes) + [c.disk]
  {
    Store(c, bj, y, c.buf[bi].data, bi, x);
    Write(c, bj, y, bi, x);
  }

  method ReleaseTwo(c: Cache, bi: nat, ghost x: nat, bj: nat, ghost y: nat)
    requires c.Valid() && Loaded(c, bi, x) && Loaded(c, bj, y) && x != y
    requires c.refs[x] > 1 || c.view[x] == c.disk[x]
    requires c.refs[y] > 1 || c.view[y] == c.disk[y]
    modifies c, c.buf
    ensures c.Valid() && c.disk == old(c.disk) && c.view == old(c.view) && c.writes == old(c.writes)
    ensures c.refs == old(c.refs) - multiset{x, y}
  {
    Release(c, bi, x, bj, y);
    Release(c, bj, y, 0, 0);
  }

  method UnpinAndRelease(c: Cache, bi: nat, ghost x: nat, bj: nat, ghost y: nat, pinned: bool)
    requires c.Valid() && Loaded(c, bi, x) && Loaded(c, bj, y) && x != y
    requires c.view[x] == c.disk[x] && c.view[y] == c.disk[y]
    requires pinned ==> c.refs[y] > 1
    modifies c, c.buf
    ensures c.Valid() && c.disk == old(c.disk) && c.view == old(c.view) && c.writes == old(c.writes)
    ensures c.refs == old(c.refs) - multiset{x, y} - (if pinned then multiset{y} else multiset{})
  {
    if pinned {
      Unpin(c, bj, y, bi, x);
    }
    ReleaseTwo(c, bi, x, bj, y);
  }

  /** The body of write_log's loop: read both blocks, copy the home block into the log slot. */
  method CopyToLog(c: Cache, x: nat, y: nat) returns (ok: bool)
    requires c.Valid() && x < |c.disk| && y < |c.disk| && x != y
    requires y in c.refs && c.view[x] == c.disk[x]
    modifies c, c.buf
    ensures ok == old(CanRead(c, x))
    ensures |old(c.refs)| < NBUF ==> ok
    ensures if ok then Put(old(c.disk), old(c.view), old(c.writes), c, x, old(c.view[y])) && c.refs == old(c.refs)
            else c.disk == old(c.disk) && c.writes == old(c.writes)
  {
    var to, from;
    ok, to, from := ReadTwo(c, x, y);
    if ok {
      Copy(c, from, y, to, x);
      ReleaseTwo(c, from, y, to, x);
    }
  }

  /** The body of install_trans's loop: read both blocks, copy the log slot into the home block. */
  method CopyHome(c: Cache, x: nat, y: nat, pinned: bool) returns (ok: bool)
    requires c.Valid() && x < |c.disk| && y < |c.disk| && x != y
    requires pinned ==> y in c.refs
    requires c.view[x] == c.disk[x]
    modifies c, c.buf
    ensures |old(c.refs)| + 1 < NBUF || (pinned && |old(c.refs)| < NBUF) ==> ok
    ensures if ok then Put(old(c.disk), old(c.view), old(c.writes), c, y, old(c.view[x]))
                       && c.refs == old(c.refs) - (if pinned then multiset{y} else multiset{})
            else c.disk == old(c.disk) && c.writes == old(c.writes)
  {
    var lbuf, dbuf;
    ok, lbuf, dbuf := ReadTwo(c, x, y);
    if ok {
      Copy(c, lbuf, x, dbuf, y);
      UnpinAndRelease(c, lbuf, x, dbuf, y, pinned);
    }
  }

  /** WordBlock b was set to data in memory and on disk by one block write. */
  ghost predicate Put(disk: Image, view: Image, writes: seq<Image>, c: Cache, b: nat, data: WordBlock)
    reads c, c.buf
  {
    && c.Valid() && b < |disk| == |view|
    && c.view == view[b := data] && c.disk == disk[b := data] && c.writes == writes + [c.disk]
  }

  method StoreAndWrite(c: Cache, b: nat, ghost x: nat, data: WordBlock)
    requires c.Valid() && Loaded(c, b, x)
    modifies c, c.buf
    ensures Put(old(c.disk), old(c.view), old(c.writes), c, x, data) && c.refs == old(c.refs) - multiset{x}
  {
    Store(c, b, x, data, 0, 0);
    Write(c, b, x, 0, 0);
    Release(c, b, x, 0, 0);
  }

  class Log {
    const cache: Cache
    const start: nat
    const block: array<nat>
    var n: nat
    var outstanding: nat
    var committing: bool
    ghost var edited: set<nat>  // blocks changed in memory by an operation that has not logged them yet

    ghost function Blocks(): seq<nat>
      reads this, block
    {
      if n <= block.Length then block[..n] else []
    }

    /** The shape of the in-memory log, between any two block writes. */
    ghost predicate Shape()
      reads this, block, cache, cache.buf
    {
      && block.Length == LOGBLOCKS && n <= LOGBLOCKS
      && block as object != cache.buf
      && cache.Valid()
      && HasLog(start, cache.disk)
      && forall i :: 0 <= i < n ==> IsHome(start, |cache.disk|, block[i])
    }

    /** binit and initlog up to the call of recover_from_log. */
    constructor (start: nat, image: Image)
      requires WellFormed(start, image)
      ensures Shape() && n == 0 && outstanding == 0 && !committing && edited == {}
      ensures this.start == start && fresh(cache) && fresh(cache.buf) && fresh(block)
      ensures cache.disk == cache.view == image && cache.writes == [] && cache.refs == multiset{}
    {
      this.start := start;
      cache := new Cache(image);
      block := new nat[LOGBLOCKS](_ => 0);
      n, outstanding, committing, edited := 0, 0, false, {};
    }

    /** One step of write_log: copy the cached block number tail into its log slot. */
    method WriteLogBlock(tail: nat) returns (ok: bool)
      requires Shape() && tail < n
      requires cache.view[start + tail + 1] == cache.disk[start + tail + 1]
      requires block[tail] in cache.refs
      modifies cache, cache.buf
      ensures ok == old(CanRead(cache, start + tail + 1))
      ensures |old(cache.refs)| < NBUF ==> ok
      ensures !ok ==> cache.disk == old(cache.disk) && cache.writes == old(cache.writes)
      ensures ok ==> Shape() && cache.refs == old(cache.refs)
      ensures ok ==> cache.view == old(cache.view[start + tail + 1 := cache.view[block[tail]]])
      ensures ok ==> cache.disk == old(cache.disk[start + tail + 1 := cache.view[block[tail]]])
      ensures ok ==> cache.writes == old(cache.writes) + [cache.disk]
    {
      ok := CopyToLog(cache, start + tail + 1, block[tail]);
      assert block[..] == old(block[..]);
    }

    /** The first tail blocks have been copied to the log since the disk was d. */
    ghost predicate Logging(tail: nat, d: Image, data: seq<WordBlock>, w: nat)
      reads this, block, cache, cache.buf
    {
      && Shape() && tail <= n == |data| && HasLog(start, d) && |cache.writes| == w + tail
      && CleanBut(cache.view, cache.disk, Blocks())
      && (forall i :: 0 <= i < n ==> cache.view[block[i]] == data[i])
      && cache.disk == Logged(start, d, data, tail)
      && LogTrace(cache.writes, w, start, d, data)
    }

    method LogOne(tail: nat, ghost d: Image, ghost data: seq<WordBlock>, ghost w: nat) returns (ok: bool)
      requires Logging(tail, d, data, w) && tail < n
      requires block[tail] in cache.refs
      modifies cache, cache.buf
      ensures ok == old(CanRead(cache, start + tail + 1))
      ensures |old(cache.refs)| < NBUF ==> ok
      ensures !ok ==> cache.writes == old(cache.writes)
      ensures ok ==> Logging(tail + 1, d, data, w) && cache.refs == old(cache.refs) && old(cache.writes) <= cache.writes
    {
      ghost var writes, was := cache.writes, cache.disk;
      ok := WriteLogBlock(tail);
      if ok {
        LogTraceGrows(writes, w, start, d, data, was, cache.disk);
      }
    }

    /** Copy the logged blocks from the cache to the log. Whether or not it halts on the way, the
        disk goes through a prefix of the images that Logged lists. */
    method WriteLog() returns (ok: bool)
      requires Shape() && CleanBut(cache.view, cache.disk, Blocks())
      requires forall i :: 0 <= i < n ==> block[i] in cache.refs
      modifies cache, cache.buf
      ensures |old(cache.refs)| < NBUF ==> ok
      ensures n > 0 && !old(CanRead(cache, start + 1)) ==> !ok
      ensures old(cache.writes) <= cache.writes
      ensures LogTrace(cache.writes, |old(cache.writes)|, start, old(cache.disk), old(Snapshot(cache.view, Blocks())))
      ensures ok ==> cache.refs == old(cache.refs)
      ensures ok ==> Logging(n, old(cache.disk), old(Snapshot(cache.view, Blocks())), |old(cache.writes)|)
    {
      ghost var data, d, w := Snapshot(cache.view, Blocks()), cache.disk, |cache.writes|;
      ok := true;
      for tail := 0 to n
        invariant Logging(tail, d, data, w) && cache.refs == old(cache.refs)
        invariant tail == 0 ==> CanRead(cache, start + 1) == old(CanRead(cache, start + 1))
        invariant tail > 0 ==> old(CanRead(cache, start + 1))
        invariant old(cache.writes) <= cache.writes
      {
        ok := LogOne(tail, d, data, w);
        if !ok { return; }
      }
    }

    /** The loop of write_head: put the in-memory header into the header block h. */
    method FillBlock(h: WordBlock) returns (r: WordBlock)
      requires n <= block.Length == LOGBLOCKS
      ensures r == PutHeader(h, Blocks())
    {
      var t: seq<int> := h[0 := n];
      for i := 0 to n
        invariant |t| == BLOCKWORDS && t[0] == n
        invariant forall j :: 0 <= j < i ==> t[1 + j] == block[j]
        invariant forall j :: i < j < BLOCKWORDS ==> t[j] == h[j]
      {
        t := t[1 + i := block[i]];
      }
      r := t;
    }

    /** Write the in-memory header to the header block: with n > 0 the commit point. */
    method WriteHead() returns (ok: bool)
      requires Shape() && cache.view[start] == cache.disk[start]
      modifies cache, cache.buf
      ensures |old(cache.refs)| < NBUF ==> ok
      ensures !ok ==> cache.disk == old(cache.disk) && cache.writes == old(cache.writes)
      ensures ok ==> Shape() && cache.refs == old(cache.refs)
      ensures ok ==> cache.view == old(cache.view)[start := PutHeader(old(cache.view[start]), Blocks())]
      ensures ok ==> cache.disk == old(cache.disk)[start := PutHeader(old(cache.disk[start]), Blocks())]
      ensures ok ==> cache.writes == old(cache.writes) + [cache.disk]
    {
      var b;
      ok, b := Read(cache, start, 0, 0);
      if ok {
        var h := FillBlock(cache.buf[b].data);
        StoreAndWrite(cache, b, start, h);
        assert block[..] == old(block[..]);
      }
    }

    /** One step of install_trans: copy log slot tail to its home block and write it. */
    method InstallBlock(tail: nat, recovering: bool) returns (ok: bool)
      requires Shape() && tail < n
      requires cache.view[start + tail + 1] == cache.disk[start + tail + 1]
      requires !recovering ==> block[tail] in cache.refs
      modifies cache, cache.buf
      ensures |old(cache.refs)| + 1 < NBUF ==> ok
      ensures !recovering && |old(cache.refs)| < NBUF ==> ok
      ensures !ok ==> cache.disk == old(cache.disk) && cache.writes == old(cache.writes)
      ensures ok ==> Shape()
      ensures ok ==> cache.refs == if recovering then old(cache.refs) else old(cache.refs) - multiset{block[tail]}
      ensures ok ==> cache.view == old(cache.view)[block[tail] := old(cache.disk[start + tail + 1])]
      ensures ok ==> cache.disk == old(cache.disk)[block[tail] := old(cache.disk[start + tail + 1])]
      ensures ok ==> cache.writes == old(cache.writes) + [cache.disk]
    {
      ok := CopyHome(cache, start + tail + 1, block[tail], !recovering);
      assert block[..] == old(block[..]);
    }

    /** The first tail blocks have been installed since the disk was d. */
    ghost predicate Installing(tail: nat, pending: seq<nat>, d: Image, w: nat)
      reads this, block, cache, cache.buf
    {
      && Shape() && WellFormed(start, d) && tail <= n == Count(d[start]) && |cache.writes| == w + tail
      && (forall i :: 0 <= i < n ==> block[i] == Target(d[start], i))
      && cache.disk == Installed(start, d, tail)
      && CleanBut(cache.view, cache.disk, pending)
      && InstallTrace(cache.writes, w, start, d)
    }

    ghost predicate AllPinned(refs: multiset<nat>)
      reads this, block
    {
      && n <= block.Length
      && (forall i :: 0 <= i < n ==> block[i] in refs)
      && (forall i, j :: 0 <= i < j < n ==> block[i] != block[j])
    }

    method InstallOne(tail: nat, recovering: bool, ghost pending: seq<nat>, ghost rest: seq<nat>, ghost d: Image,
                      ghost w: nat)
      returns (ok: bool)
      requires Installing(tail, pending, d, w) && tail < n
      requires forall b :: b in pending ==> b in Blocks() && (b == block[tail] || b in rest)
      requires !recovering ==> block[tail] in cache.refs
      modifies cache, cache.buf
      ensures |old(cache.refs)| + 1 < NBUF || (!recovering && |old(cache.refs)| < NBUF) ==> ok
      ensures !ok ==> cache.writes == old(cache.writes)
      ensures ok ==> Installing(tail + 1, rest, d, w) && old(cache.writes) <= cache.writes
      ensures ok ==> cache.refs == if recovering then old(cache.refs) else old(cache.refs) - multiset{block[tail]}
    {
      ghost var writes, was := cache.writes, cache.disk;
      ok := InstallBlock(tail, recovering);
      if ok {
        InstallTraceGrows(writes, w, start, d, was, cache.disk);
      }
    }

    ghost predicate InstallLoop(tail: nat, recovering: bool, d: Image, w: nat, refs: multiset<nat>)
      reads this, block, cache, cache.buf
    {
      && tail <= |Blocks()|
      && Installing(tail, Pending(recovering, Blocks(), tail), d, w)
      && cache.refs == Unpinned(recovering, refs, Blocks(), tail)
    }

    method InstallNext(tail: nat, recovering: bool, ghost d: Image, ghost w: nat, ghost refs: multiset<nat>)
      returns (ok: bool)
      requires InstallLoop(tail, recovering, d, w, refs) && tail < n
      requires !recovering ==> AllPinned(refs)
      modifies cache, cache.buf
      ensures |refs| + 1 < NBUF || (!recovering && |refs| < NBUF) ==> ok
      ensures !ok || InstallLoop(tail + 1, recovering, d, w, refs)
      ensures if ok then old(cache.writes) <= cache.writes else cache.writes == old(cache.writes)
    {
      ghost var bs := Blocks();
      NextPin(bs, tail, refs, recovering);
      ok := InstallOne(tail, recovering, Pending(recovering, bs, tail), Pending(recovering, bs, tail + 1), d, w);
      assert Blocks() == bs;
    }

    /** Install the transaction described by the header: after a crash, when nothing is pinned, or at
        a commit, which unpins the blocks as it goes. */
    method InstallTrans(recovering: bool) returns (ok: bool)
      requires InstallLoop(0, recovering, cache.disk, |cache.writes|, cache.refs)
      requires !recovering ==> AllPinned(cache.refs)
      modifies cache, cache.buf
      ensures |old(cache.refs)| + 1 < NBUF || (!recovering && |old(cache.refs)| < NBUF) ==> ok
      ensures old(cache.writes) <= cache.writes
      ensures InstallTrace(cache.writes, |old(cache.writes)|, start, old(cache.disk))
      ensures ok ==> InstallLoop(n, recovering, old(cache.disk), |old(cache.writes)|, old(cache.refs))
    {
      ghost var d, w, refs := cache.disk, |cache.writes|, cache.refs;
      ok := true;
      for tail := 0 to n
        invariant InstallLoop(tail, recovering, d, w, refs) && old(cache.writes) <= cache.writes
      {
        ok := InstallNext(tail, recovering, d, w, refs);
        if !ok { return; }
      }
    }

    method ReadHead() returns (ok: bool)
      requires Shape() && WellFormed(start, cache.disk) && cache.view == cache.disk && n == 0
      modifies this`n, block, cache, cache.buf
      ensures |old(cache.refs)| < NBUF ==> ok
      ensures cache.disk == old(cache.disk) && cache.writes == old(cache.writes)
      ensures ok ==> Shape() && cache.view == cache.disk && cache.refs == old(cache.refs)
      ensures ok ==> n == Count(cache.disk[start])
      ensures ok ==> forall i :: 0 <= i < n ==> block[i] == Target(cache.disk[start], i)
    {
      var b;
      ok, b := Read(cache, start, 0, 0);
      if !ok { return; }
      var lh := cache.buf[b].data;
      Release(cache, b, start, 0, 0);
      FillHead(lh);
    }

    /** The loop of read_head: fill the in-memory header from the block lh. */
    method FillHead(lh: WordBlock)
      requires Shape() && WellFormed(start, cache.disk) && lh == cache.disk[start]
      modifies this`n, block
      ensures Shape() && n == Count(lh)
      ensures forall i :: 0 <= i < n ==> block[i] == Target(lh, i)
    {
      n := lh[0];
      for i := 0 to n
        invariant n == Count(lh) && cache.Valid()
        invariant forall j :: 0 <= j < i ==> block[j] == Target(lh, j)
      {
        assert IsHome(start, |cache.disk|, Target(lh, i));
        block[i] := lh[1 + i];
      }
      assert forall j :: 0 <= j < n ==> IsHome(start, |cache.disk|, Target(lh, j));
    }

    /** Recovery at boot, with nothing in memory yet: it never runs out of buffers, it leaves the
        disk that Recovered describes, and passes only through RecoveryDisk images. */
    method RecoverFromLog() returns (ok: bool)
      requires Shape() && WellFormed(start, cache.disk) && cache.view == cache.disk && n == 0
      requires cache.refs == multiset{}
      modifies this`n, block, cache, cache.buf
      ensures ok && Shape() && n == 0 && cache.refs == multiset{}
      ensures cache.view == cache.disk == Recovered(start, old(cache.disk))
      ensures old(cache.writes) <= cache.writes
      ensures |cache.writes| == |old(cache.writes)| + Count(old(cache.disk[start])) + 1
      ensures forall j :: |old(cache.writes)| <= j < |cache.writes| ==>
                cache.writes[j] == RecoveryDisk(start, old(cache.disk), j - |old(cache.writes)| + 1)
    {
      ghost var d, w := cache.disk, |cache.writes|;
      ok := ReadHead();
      Prefixes(Blocks(), cache.refs, true);
      ok := InstallTrans(true);
      Prefixes(Blocks(), multiset{}, true);
      n := 0;
      assert Blocks() == [];
      ok := WriteHead();
    }

    /** initlog on any disk with a log: the first transaction may begin. */
    static method Boot(start: nat, image: Image) returns (l: Log)
      requires WellFormed(start, image)
      ensures fresh(l) && fresh(l.cache) && fresh(l.cache.buf) && fresh(l.block)
      ensures l.Inv() && l.State() == LogReservation.State([], 0, false) && l.start == start
      ensures l.cache.refs == multiset{}
      ensures l.cache.view == l.cache.disk == Recovered(start, image)
    {
      l := new Log(start, image);
      var ok := l.RecoverFromLog();
    }

    ghost predicate Committable()
      reads this, block, cache, cache.buf
    {
      && Shape() && Count(cache.disk[start]) == 0 && AllPinned(cache.refs)
      && CleanBut(cache.view, cache.disk, Blocks())
    }

    /** Where a commit of the blocks bs, begun on disk d after the block writes base, stands. */
    ghost predicate AtStage(writesDone: nat, pending: seq<nat>, base: seq<Image>, d: Image, bs: seq<nat>,
                            data: seq<WordBlock>)
      reads this, block, cache, cache.buf
    {
      && Shape() && CleanBut(cache.view, cache.disk, pending) && |bs| > 0
      && CommitTrace(cache.writes, base, start, d, bs, data)
      && |cache.writes| == |base| + writesDone && writesDone <= CommitWrites(|bs|)
      && cache.disk == CommitDisk(start, d, bs, data, writesDone)
    }

    ghost predicate Finished(base: seq<Image>, d: Image, bs: seq<nat>, data: seq<WordBlock>)
      reads this, block, cache, cache.buf
    {
      && Shape() && |bs| > 0 && Transaction(start, d, bs, data)
      && cache.view == cache.disk == CommitDisk(start, d, bs, data, CommitWrites(|bs|))
      && |cache.writes| == |base| + CommitWrites(|bs|)
    }

    method FirstWriteLog(ghost base: seq<Image>, ghost d: Image, ghost bs: seq<nat>, ghost data: seq<WordBlock>)
      returns (ok: bool)
      requires Committable() && n > 0 && base == cache.writes && d == cache.disk
      requires bs == Blocks() && data == Snapshot(cache.view, bs)
      modifies cache, cache.buf
      ensures old(|cache.refs| < NBUF) ==> ok
      ensures n == NBUF ==> !ok
      ensures Blocks() == bs
      ensures CommitTrace(cache.writes, base, start, d, bs, data)
      ensures !ok || (AtStage(n, bs, base, d, bs, data) && cache.refs == old(cache.refs))
    {
      if n == NBUF {
        FullCannotRead(cache, bs, start + 1);
      }
      ok := WriteLog();
      assert Blocks() == bs;
      CommitTraceLogged(cache.writes, base, start, d, bs, data);
    }

    method ThenWriteHead(ghost base: seq<Image>, ghost d: Image, ghost bs: seq<nat>, ghost data: seq<WordBlock>)
      returns (ok: bool)
      requires AtStage(n, bs, base, d, bs, data) && bs == Blocks()
      modifies cache, cache.buf
      ensures old(|cache.refs| < NBUF) ==> ok
      ensures Blocks() == bs
      ensures CommitTrace(cache.writes, base, start, d, bs, data)
      ensures !ok || (AtStage(n + 1, bs, base, d, bs, data) && cache.refs == old(cache.refs))
    {
      ghost var writes := cache.writes;
      ok := WriteHead();
      assert Blocks() == bs;
      if ok {
        CommitTraceSealed(writes, base, start, d, bs, data, cache.disk);
      }
    }

    /** install_trans for a commit: afterwards everything in memory is on disk. */
    method InstallCommitted() returns (ok: bool)
      requires Shape() && WellFormed(start, cache.disk) && n == Count(cache.disk[start]) && AllPinned(cache.refs)
      requires forall i :: 0 <= i < n ==> block[i] == Target(cache.disk[start], i)
      requires CleanBut(cache.view, cache.disk, Blocks())
      modifies cache, cache.buf
      ensures old(|cache.refs| < NBUF) ==> ok
      ensures Blocks() == old(Blocks()) && old(cache.writes) <= cache.writes
      ensures InstallTrace(cache.writes, |old(cache.writes)|, start, old(cache.disk))
      ensures ok ==> Shape() && cache.view == cache.disk == Installed(start, old(cache.disk), n)
      ensures ok ==> |cache.writes| == |old(cache.writes)| + n && cache.refs == old(cache.refs) - multiset(Blocks())
    {
      ghost var bs, refs := Blocks(), cache.refs;
      Prefixes(bs, refs, false);
      ok := InstallTrans(false);
      assert Blocks() == bs;
      assert ok ==> CleanBut(cache.view, cache.disk, []);
    }

    method ThenInstall(ghost base: seq<Image>, ghost d: Image, ghost bs: seq<nat>, ghost data: seq<WordBlock>)
      returns (ok: bool)
      requires AtStage(n + 1, bs, base, d, bs, data) && bs == Blocks() && AllPinned(cache.refs)
      modifies cache, cache.buf
      ensures old(|cache.refs| < NBUF) ==> ok
      ensures Blocks() == bs
      ensures CommitTrace(cache.writes, base, start, d, bs, data)
      ensures ok ==> AtStage(2 * |bs| + 1, [], base, d, bs, data) && cache.refs == old(cache.refs) - multiset(bs)
    {
      ghost var writes := cache.writes;
      SealedTargets(start, d, bs, data);
      ok := InstallCommitted();
      CommitTraceInstalled(writes, cache.writes, base, start, d, bs, data);
    }

    method ThenClear(ghost base: seq<Image>, ghost d: Image, ghost bs: seq<nat>, ghost data: seq<WordBlock>)
      returns (ok: bool)
      requires AtStage(2 * |bs| + 1, [], base, d, bs, data) && n == 0
      modifies cache, cache.buf
      ensures old(|cache.refs| < NBUF) ==> ok
      ensures CommitTrace(cache.writes, base, start, d, bs, data)
      ensures !ok || (Finished(base, d, bs, data) && cache.refs == old(cache.refs))
    {
      ghost var writes := cache.writes;
      assert Blocks() == [];
      ok := WriteHead();
      if ok {
        CommitTraceDone(writes, base, start, d, bs, data, cache.disk);
        assert CleanBut(cache.view, cache.disk, []);
      }
    }

    /** commit up to and including its first write_head. */
    method UntilCommitPoint(ghost base: seq<Image>, ghost d: Image, ghost bs: seq<nat>, ghost data: seq<WordBlock>)
      returns (ok: bool)
      requires Committable() && n > 0 && base == cache.writes && d == cache.disk
      requires bs == Blocks() && data == Snapshot(cache.view, bs)
      modifies cache, cache.buf
      ensures old(|cache.refs| < NBUF) ==> ok
      ensures n == NBUF ==> !ok
      ensures Blocks() == bs && CommitTrace(cache.writes, base, start, d, bs, data)
      ensures !ok || (AtStage(n + 1, bs, base, d, bs, data) && AllPinned(cache.refs) && cache.refs == old(cache.refs))
    {
      ok := FirstWriteLog(base, d, bs, data);
      if ok {
        ok := ThenWriteHead(base, d, bs, data);
        assert block[..n] == bs;
      }
    }

    /** commit after its first write_head. */
    method FromCommitPoint(ghost base: seq<Image>, ghost d: Image, ghost bs: seq<nat>, ghost data: seq<WordBlock>)
      returns (ok: bool)
      requires AtStage(n + 1, bs, base, d, bs, data) && bs == Blocks() && AllPinned(cache.refs)
      modifies this`n, cache, cache.buf
      ensures old(|cache.refs| < NBUF) ==> ok
      ensures CommitTrace(cache.writes, base, start, d, bs, data)
      ensures !ok || (Finished(base, d, bs, data) && n == 0 && cache.refs == old(cache.refs) - multiset(bs))
    {
      ok := ThenInstall(base, d, bs, data);
      if ok {
        FewerPins(old(cache.refs), bs);
        n := 0;
        ok := ThenClear(base, d, bs, data);
      }
    }

    /** The body of commit for a log that is not empty. */
    method CommitStages(ghost base: seq<Image>, ghost d: Image, ghost bs: seq<nat>, ghost data: seq<WordBlock>)
      returns (ok: bool)
      requires Committable() && n > 0 && base == cache.writes && d == cache.disk
      requires bs == Blocks() && data == Snapshot(cache.view, bs)
      modifies this`n, cache, cache.buf
      ensures old(|cache.refs| < NBUF) ==> ok
      ensures old(n) == NBUF ==> !ok
      ensures CommitTrace(cache.writes, base, start, d, bs, data)
      ensures !ok || (Finished(base, d, bs, data) && n == 0 && cache.refs == old(cache.refs) - multiset(bs))
    {
      ok := UntilCommitPoint(base, d, bs, data);
      if ok {
        ok := FromCommitPoint(base, d, bs, data);
      }
    }

    lemma FewerPins(refs: multiset<nat>, bs: seq<nat>)
      ensures |refs - multiset(bs)| <= |refs|
    {
      assert refs == (refs - multiset(bs)) + refs * multiset(bs);
    }

    method CommitLogged(ghost view: Image, ghost bs: seq<nat>, ghost data: seq<WordBlock>) returns (ok: bool)
      requires Committable() && n > 0 && view == cache.view && bs == Blocks() && data == Snapshot(view, bs)
      modifies this`n, cache, cache.buf
      ensures old(|cache.refs| < NBUF) ==> ok
      ensures old(n) == NBUF ==> !ok
      ensures CommitTrace(cache.writes, old(cache.writes), start, old(cache.disk), bs, data)
      ensures ok ==> |cache.writes| == |old(cache.writes)| + CommitWrites(|bs|)
      ensures ok ==> Shape() && n == 0 && cache.refs == old(cache.refs) - multiset(bs)
      ensures ok ==> SameHomes(start, view, cache.view) && cache.view == cache.disk && Count(cache.disk[start]) == 0
    {
      ghost var d := cache.disk;
      ok := CommitStages(cache.writes, d, bs, data);
      if ok {
        CommitCompletes(start, d, view, bs, data, cache.disk);
      }
    }

    /** Commit the logged blocks. Whatever happens the disk goes through a prefix of the images of
        CommitDisk, so AllOrNothing applies to every point at which it may stop. With nothing but
        the log's own pins held it completes exactly when a buffer is left over for the log. */
    method Commit() returns (ok: bool)
      requires Committable()
      modifies this`n, cache, cache.buf
      ensures old(|cache.refs| < NBUF) ==> ok
      ensures old(n) == NBUF ==> !ok
      ensures CommitTrace(cache.writes, old(cache.writes), start, old(cache.disk),
                old(Blocks()), old(Snapshot(cache.view, Blocks())))
      ensures ok ==> |cache.writes| == |old(cache.writes)| + CommitWrites(old(n))
      ensures ok ==> Shape() && n == 0 && cache.refs == old(cache.refs) - multiset(old(Blocks()))
      ensures ok ==> SameHomes(start, old(cache.view), cache.view)
      ensures ok ==> cache.view == cache.disk && Count(cache.disk[start]) == 0
    {
      ok := true;
      ghost var bs, data := Blocks(), Snapshot(cache.view, Blocks());
      if n > 0 {
        ok := CommitLogged(cache.view, bs, data);
      } else {
        NothingToCommit(start, cache.disk, cache.view, cache.writes, bs, data, cache.refs);
      }
    }

    // ---------- operations ----------

    ghost function State(): State
      reads this, block
    {
      LogReservation.State(Blocks(), outstanding, committing)
    }

    /** Between any two calls: the disk has no committed transaction waiting, every logged block is
        pinned in memory, and every change in memory is logged or about to be. */
    ghost predicate Inv()
      reads this, block, cache, cache.buf
    {
      && Shape() && Count(cache.disk[start]) == 0 && AllPinned(cache.refs)
      && (forall b :: 0 <= b < |cache.disk| && cache.view[b] != cache.disk[b] ==> b in Blocks() || b in edited)
      && (forall b :: b in edited ==> IsHome(start, |cache.disk|, b))
      && (outstanding == 0 ==> edited == {})
    }

    /** One pass of begin_op's loop; the caller sleeps and tries again when it is not admitted. */
    method BeginOp() returns (admitted: bool)
      requires Inv()
      modifies this`outstanding
      ensures Inv() && admitted == Admits(old(State()))
      ensures State() == if admitted then Begun(old(State())) else old(State())
    {
      admitted := !committing && n + (outstanding + 1) * MAXOPBLOCKS <= LOGBLOCKS;
      if admitted {
        outstanding := outstanding + 1;
      }
    }

    /** An operation reads a block. */
    method Hold(x: nat) returns (ok: bool, b: nat)
      requires Inv() && x < |cache.disk|
      modifies cache, cache.buf
      ensures Inv() && cache.view == old(cache.view) && cache.disk == old(cache.disk)
      ensures ok == old(CanRead(cache, x)) && (|old(cache.refs)| < NBUF ==> ok)
      ensures cache.refs == if ok then old(cache.refs) + multiset{x} else old(cache.refs)
      ensures ok ==> Loaded(cache, b, x)
    {
      ok, b := Read(cache, x, 0, 0);
    }

    /** An operation lets a block go: one that is pinned, or one that it has not changed. */
    method LetGo(b: nat, ghost x: nat)
      requires Inv() && Loaded(cache, b, x)
      requires if x in Blocks() then cache.refs[x] > 1 else cache.view[x] == cache.disk[x]
      modifies cache, cache.buf
      ensures Inv() && cache.view == old(cache.view) && cache.disk == old(cache.disk)
      ensures cache.refs == old(cache.refs) - multiset{x}
    {
      Release(cache, b, x, 0, 0);
    }

    /** An operation changes a block it holds. */
    method Edit(b: nat, ghost x: nat, data: WordBlock)
      requires Inv() && outstanding > 0 && Loaded(cache, b, x) && IsHome(start, |cache.disk|, x)
      modifies this`edited, cache, cache.buf
      ensures Inv() && State() == old(State()) && edited == old(edited) + {x}
      ensures x < |old(cache.view)| && cache.view == old(cache.view)[x := data]
      ensures cache.disk == old(cache.disk) && cache.refs == old(cache.refs) && Loaded(cache, b, x)
    {
      Store(cache, b, x, data, 0, 0);
      edited := edited + {x};
      assert block[..] == old(block[..]);
    }

    /** The search loop of log_write: the slot that already names x, or n. */
    method FindSlot(x: nat) returns (i: nat)
      requires n <= block.Length
      ensures i <= n && (i < n ==> block[i] == x) && (i == n ==> x !in Blocks())
    {
      i := 0;
      while i < n
        invariant i <= n && forall j :: 0 <= j < i ==> block[j] != x
      {
        if block[i] == x { return; }
        i := i + 1;
      }
    }

    /** log_write's case of a block that is already in the log. */
    method Absorb(i: nat, b: nat, ghost x: nat)
      requires Inv() && Loaded(cache, b, x) && i < n && block[i] == x
      modifies this`edited, block
      ensures Inv() && Blocks() == old(Blocks()) && Loaded(cache, b, x) && edited == old(edited) - {x}
    {
      block[i] := cache.buf[b].blockno;
      assert block[..] == old(block[..]);
      assert x in Blocks();
      edited := edited - {x};
    }

    /** log_write's case of a block that is not in the log yet. */
    method Append(b: nat, ghost x: nat)
      requires Inv() && Loaded(cache, b, x) && IsHome(start, |cache.disk|, x) && n < LOGBLOCKS && x !in Blocks()
      modifies this`n, this`edited, block, cache, cache.buf
      ensures Inv() && Blocks() == old(Blocks()) + [x] && edited == old(edited) - {x}
      ensures cache.view == old(cache.view) && cache.disk == old(cache.disk) && cache.writes == old(cache.writes)
      ensures cache.refs == old(cache.refs) + multiset{x} && Loaded(cache, b, x)
    {
      ghost var bs := Blocks();
      Pin(cache, b, x);
      assert block[..] == old(block[..]);
      block[n] := cache.buf[b].blockno;
      n := n + 1;
      edited := edited - {x};
      assert Blocks() == bs + [x];
      Appended(bs, x, block, cache.refs);
    }

    /** Log block x, which the caller holds in buffer b; ok is false where the source panics. */
    method LogWrite(b: nat, ghost x: nat) returns (ok: bool)
      requires Inv() && Loaded(cache, b, x) && IsHome(start, |cache.disk|, x)
      modifies this`n, this`edited, block, cache, cache.buf
      ensures ok == CanLog(old(State()))
      ensures Inv() && Blocks() == if ok && x !in old(Blocks()) then old(Blocks()) + [x] else old(Blocks())
      ensures cache.view == old(cache.view) && cache.disk == old(cache.disk) && cache.writes == old(cache.writes)
      ensures edited == if ok then old(edited) - {x} else old(edited)
      ensures cache.refs == if ok && x !in old(Blocks()) then old(cache.refs) + multiset{x} else old(cache.refs)
      ensures Loaded(cache, b, x)
    {
      ok := n < LOGBLOCKS && outstanding >= 1;
      if !ok { return; }
      var i := FindSlot(cache.buf[b].blockno);
      if i == n {
        Append(b, x);
      } else {
        assert x in Blocks();
        Absorb(i, b, x);
      }
    }

    /** What every change of a block comes to: bread, a change in memory, log_write, brelse. The block is new to
        the log. */
    method Change(x: nat, data: WordBlock) returns (ok: bool)
      requires Inv() && outstanding > 0 && IsHome(start, |cache.disk|, x) && x !in Blocks()
      requires CanLog(State()) && |cache.refs| < NBUF
      modifies this`n, this`edited, block, cache, cache.buf
      ensures ok && Inv() && Blocks() == old(Blocks()) + [x] && edited == old(edited) - {x}
      ensures x < |old(cache.view)| && cache.view == old(cache.view)[x := data] && cache.disk == old(cache.disk)
      ensures cache.refs == old(cache.refs) + multiset{x}
    {
      var b;
      ok, b := Hold(x);
      Edit(b, x, data);
      ok := LogAndLetGo(b, x);
    }

    /** log_write of a block that is new to the log, and brelse: a pin takes the place of the reference. */
    method LogAndLetGo(b: nat, ghost x: nat) returns (ok: bool)
      requires Inv() && Loaded(cache, b, x) && IsHome(start, |cache.disk|, x) && x !in Blocks() && CanLog(State())
      modifies this`n, this`edited, block, cache, cache.buf
      ensures ok && Inv() && Blocks() == old(Blocks()) + [x] && edited == old(edited) - {x}
      ensures cache.view == old(cache.view) && cache.disk == old(cache.disk) && cache.refs == old(cache.refs)
    {
      ok := LogWrite(b, x);
      assert cache.refs[x] > 1;
      LetGo(b, x);
    }

    lemma Appended(bs: seq<nat>, x: nat, block: array<nat>, refs: multiset<nat>)
      requires |bs| < block.Length && block[..|bs| + 1] == bs + [x]
      ensures forall i :: 0 <= i <= |bs| ==> block[i] == (bs + [x])[i]
    {
    }

    /** end_op up to its first release. */
    method EndOp() returns (ok: bool, doCommit: bool)
      requires Inv() && outstanding > 0 && (outstanding == 1 ==> edited == {})
      modifies this`outstanding, this`committing
      ensures ok == !old(committing)
      ensures ok ==> Inv() && State() == Ended(old(State())) && doCommit == committing
    {
      outstanding := outstanding - 1;
      ok, doCommit := !committing, false;
      if ok && outstanding == 0 {
        doCommit, committing := true, true;
      }
    }

    /** The rest of end_op for the last operation. What readers saw is then what is on disk. */
    method CommitAndReopen() returns (ok: bool)
      requires Inv() && outstanding == 0 && committing
      modifies this`n, this`committing, cache, cache.buf
      ensures old(|cache.refs| < NBUF) ==> ok
      ensures old(n) == NBUF ==> !ok
      ensures CommitTrace(cache.writes, old(cache.writes), start, old(cache.disk),
                old(Blocks()), old(Snapshot(cache.view, Blocks())))
      ensures ok ==> Inv() && State() == Reopened(Cleared(old(State())))
      ensures ok ==> SameHomes(start, old(cache.view), cache.view) && cache.view == cache.disk
    {
      ok := Commit();
      committing := false;
    }
  }
}
