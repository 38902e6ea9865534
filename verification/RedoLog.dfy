/** The on-disk format of the redo log, the disk images that a commit and a recovery
    pass through, and what survives a crash between any two of their block writes. */
module RedoLog {
  import opened Params

  const BLOCKWORDS := 256  // BSIZE / sizeof(int)

  type WordBlock = b: seq<int> | |b| == BLOCKWORDS witness seq(BLOCKWORDS, _ => 0)

  type Image = seq<WordBlock>

  /** A block that a transaction may name: on the disk, outside the log area. */
  predicate IsHome(start: nat, size: nat, b: int) {
    0 <= b < size && !(start <= b <= start + LOGBLOCKS)
  }

  predicate HasLog(start: nat, d: Image) {
    start + LOGBLOCKS < |d|
  }

  /** Word 0 of the header block: how many logged blocks are committed. */
  function Count(header: WordBlock): int {
    header[0]
  }

  function Target(header: WordBlock, i: nat): int
    requires i < LOGBLOCKS
  {
    header[1 + i]
  }

  predicate WellFormed(start: nat, d: Image) {
    && HasLog(start, d)
    && 0 <= Count(d[start]) <= LOGBLOCKS
    && forall i :: 0 <= i < Count(d[start]) ==> IsHome(start, |d|, Target(d[start], i))
  }

  /** The header block after write_head: count and block numbers change, the rest stays. */
  function PutHeader(h: WordBlock, blocks: seq<int>): (r: WordBlock)
    requires |blocks| <= LOGBLOCKS
    ensures r[0] == |blocks|
    ensures forall i :: 0 <= i < |blocks| ==> r[1 + i] == blocks[i]
    ensures forall i :: |blocks| < i < BLOCKWORDS ==> r[i] == h[i]
  {
    [|blocks|] + blocks + h[1 + |blocks|..]
  }

  // ---------- recovery ----------

  /** The disk after the first k installs of install_trans. */
  function Installed(start: nat, d: Image, k: nat): (r: Image)
    requires WellFormed(start, d) && k <= Count(d[start])
    ensures |r| == |d| && WellFormed(start, r) && r[start] == d[start]
    ensures forall b {:trigger r[b]} :: start <= b <= start + LOGBLOCKS ==> r[b] == d[b]
  {
    if k == 0 then d else Installed(start, d, k - 1)[Target(d[start], k - 1) := d[start + k]]
  }

  /** The disk after an undisturbed recover_from_log. */
  function Recovered(start: nat, d: Image): (r: Image)
    requires WellFormed(start, d)
    ensures WellFormed(start, r) && Count(r[start]) == 0 && |r| == |d|
  {
    Installed(start, d, Count(d[start]))[start := PutHeader(d[start], [])]
  }

  /** The disk after k block writes of recover_from_log; it makes Count + 1 writes. */
  function RecoveryDisk(start: nat, d: Image, k: nat): (r: Image)
    requires WellFormed(start, d) && k <= Count(d[start]) + 1
    ensures WellFormed(start, r) && |r| == |d|
  {
    if k <= Count(d[start]) then Installed(start, d, k) else Recovered(start, d)
  }

  /** The disk after a series of recoveries, the i-th crashed after cuts[i] block writes
      (or completed, when it makes fewer). */
  function Crashes(start: nat, d: Image, cuts: seq<nat>): (r: Image)
    requires WellFormed(start, d)
    ensures WellFormed(start, r) && |r| == |d|
    decreases |cuts|
  {
    if cuts == [] then d
    else
      var k := if cuts[0] <= Count(d[start]) then cuts[0] else Count(d[start]) + 1;
      Crashes(start, RecoveryDisk(start, d, k), cuts[1..])
  }

  predicate Hit(start: nat, d: Image, k: nat, b: int)
    requires WellFormed(start, d) && k <= Count(d[start])
  {
    exists i :: 0 <= i < k && Target(d[start], i) == b
  }

  lemma {:induction false} InstalledMiss(start: nat, d: Image, k: nat, b: nat)
    requires WellFormed(start, d) && k <= Count(d[start]) && b < |d|
    requires !Hit(start, d, k, b)
    ensures Installed(start, d, k)[b] == d[b]
  {
    if k > 0 {
      InstalledMiss(start, d, k - 1, b);
    }
  }

  /** Installing again from the start over a half-installed disk changes nothing it should not. */
  lemma {:induction false} ReinstallAt(start: nat, d: Image, k: nat, m: nat, b: nat)
    requires WellFormed(start, d) && k <= m <= Count(d[start]) && b < |d|
    ensures Installed(start, Installed(start, d, k), m)[b] == Installed(start, d, m)[b]
    decreases m
  {
    var e := Installed(start, d, k);
    if Hit(start, d, m, b) {
      ReinstallHit(start, d, e, m, b);
    } else {
      assert forall i :: 0 <= i < m ==> Target(e[start], i) == Target(d[start], i);
      InstalledMiss(start, d, m, b);
      InstalledMiss(start, d, k, b);
      InstalledMiss(start, e, m, b);
    }
  }

  lemma {:induction false} ReinstallHit(start: nat, d: Image, e: Image, m: nat, b: nat)
    requires WellFormed(start, d) && WellFormed(start, e) && |d| == |e| && b < |d|
    requires forall c :: start <= c <= start + LOGBLOCKS ==> e[c] == d[c]
    requires m <= Count(d[start]) && Hit(start, d, m, b)
    ensures Installed(start, e, m)[b] == Installed(start, d, m)[b]
  {
    if Target(d[start], m - 1) != b {
      ReinstallHit(start, d, e, m - 1, b);
    }
  }

  /** A recovery that crashed after any number of its writes is finished by the next one. */
  lemma {:induction false} RecoveryIsRestartable(start: nat, d: Image, k: nat)
    requires WellFormed(start, d) && k <= Count(d[start]) + 1
    ensures Recovered(start, RecoveryDisk(start, d, k)) == Recovered(start, d)
  {
    var e, n := RecoveryDisk(start, d, k), Count(d[start]);
    if k <= n {
      forall b | 0 <= b < |d|
        ensures Installed(start, e, n)[b] == Installed(start, d, n)[b]
      {
        ReinstallAt(start, d, k, n, b);
      }
      assert Installed(start, e, n) == Installed(start, d, n);
    } else {
      assert PutHeader(e[start], []) == e[start];
    }
  }

  lemma {:induction false} CrashesDoNotMatter(start: nat, d: Image, cuts: seq<nat>)
    requires WellFormed(start, d)
    ensures Recovered(start, Crashes(start, d, cuts)) == Recovered(start, d)
    decreases |cuts|
  {
    if cuts != [] {
      var k := if cuts[0] <= Count(d[start]) then cuts[0] else Count(d[start]) + 1;
      RecoveryIsRestartable(start, d, k);
      CrashesDoNotMatter(start, RecoveryDisk(start, d, k), cuts[1..]);
    }
  }

  // ---------- commit ----------

  ghost predicate Transaction(start: nat, d: Image, blocks: seq<int>, data: seq<WordBlock>) {
    && HasLog(start, d) && Count(d[start]) == 0
    && |blocks| == |data| <= LOGBLOCKS
    && (forall i :: 0 <= i < |blocks| ==> IsHome(start, |d|, blocks[i]))
    && (forall i, j :: 0 <= i < j < |blocks| ==> blocks[i] != blocks[j])
  }

  /** What a reader of the committed file system must find in block b. */
  ghost predicate HasNew(d: Image, e: Image, blocks: seq<int>, data: seq<WordBlock>)
    requires |d| == |e| && |blocks| == |data|
    requires forall i :: 0 <= i < |blocks| ==> 0 <= blocks[i] < |e|
  {
    forall i :: 0 <= i < |blocks| ==> e[blocks[i]] == data[i]
  }

  ghost predicate KeepsOthers(start: nat, d: Image, e: Image, blocks: seq<int>)
    requires |d| == |e|
  {
    forall b :: 0 <= b < |d| && IsHome(start, |d|, b) && b !in blocks ==> e[b] == d[b]
  }

  /** The disk after the first k writes of write_log. */
  function Logged(start: nat, d: Image, data: seq<WordBlock>, k: nat): (r: Image)
    requires HasLog(start, d) && k <= |data| <= LOGBLOCKS
    ensures |r| == |d| && r[start] == d[start]
  {
    if k == 0 then d else Logged(start, d, data, k - 1)[start + k := data[k - 1]]
  }

  lemma {:induction false} LoggedAt(start: nat, d: Image, data: seq<WordBlock>, k: nat, b: nat)
    requires HasLog(start, d) && k <= |data| <= LOGBLOCKS && b < |d|
    ensures Logged(start, d, data, k)[b] == if start < b <= start + k then data[b - start - 1] else d[b]
  {
    if k > 0 {
      LoggedAt(start, d, data, k - 1, b);
    }
  }

  /** The disk at the commit point: the log is full and the first write_head has been done. */
  ghost function Sealed(start: nat, d: Image, blocks: seq<int>, data: seq<WordBlock>): (r: Image)
    requires Transaction(start, d, blocks, data)
    ensures WellFormed(start, r) && Count(r[start]) == |blocks| && |r| == |d|
  {
    Logged(start, d, data, |data|)[start := PutHeader(d[start], blocks)]
  }

  lemma LoggedRecovers(start: nat, d: Image, blocks: seq<int>, data: seq<WordBlock>, i: nat)
    requires Transaction(start, d, blocks, data) && i <= |blocks|
    ensures WellFormed(start, Logged(start, d, data, i))
    ensures KeepsOthers(start, d, Recovered(start, Logged(start, d, data, i)), [])
  {
    forall b | 0 <= b < |d| && IsHome(start, |d|, b)
      ensures Logged(start, d, data, i)[b] == d[b]
    {
      LoggedAt(start, d, data, i, b);
    }
  }

  /** The number of block writes commit makes for n logged blocks. */
  function CommitWrites(n: nat): nat {
    if n == 0 then 0 else 2 * n + 2
  }

  /** The disk after i of the block writes of commit. */
  ghost function CommitDisk(start: nat, d: Image, blocks: seq<int>, data: seq<WordBlock>, i: nat): (r: Image)
    requires Transaction(start, d, blocks, data) && i <= CommitWrites(|blocks|)
    ensures WellFormed(start, r) && |r| == |d|
  {
    var n := |blocks|;
    if i <= n then LoggedRecovers(start, d, blocks, data, i); Logged(start, d, data, i)
    else RecoveryDisk(start, Sealed(start, d, blocks, data), i - n - 1)
  }

  ghost predicate DistinctTargets(h: WordBlock) {
    forall j, l :: 0 <= j < l < Count(h) <= LOGBLOCKS ==> Target(h, j) != Target(h, l)
  }

  lemma SealedHeader(start: nat, d: Image, blocks: seq<int>, data: seq<WordBlock>)
    requires Transaction(start, d, blocks, data)
    ensures var h := Sealed(start, d, blocks, data)[start];
            && (forall j :: 0 <= j < |blocks| ==> Target(h, j) == blocks[j])
            && DistinctTargets(h)
  {
    var h := PutHeader(d[start], blocks);
    assert forall j :: 0 <= j < |blocks| ==> Target(h, j) == blocks[j];
  }

  /** Distinct targets receive exactly their own log blocks. */
  lemma {:induction false} InstalledHit(start: nat, s: Image, k: nat, i: nat)
    requires WellFormed(start, s) && i < k <= Count(s[start])
    requires DistinctTargets(s[start])
    ensures Installed(start, s, k)[Target(s[start], i)] == s[start + 1 + i]
  {
    if i < k - 1 {
      InstalledHit(start, s, k - 1, i);
    }
  }

  lemma SealedInstallsNew(start: nat, d: Image, blocks: seq<int>, data: seq<WordBlock>, i: nat)
    requires Transaction(start, d, blocks, data) && i < |blocks|
    ensures Recovered(start, Sealed(start, d, blocks, data))[blocks[i]] == data[i]
  {
    var s, n := Sealed(start, d, blocks, data), |blocks|;
    SealedHeader(start, d, blocks, data);
    LoggedAt(start, d, data, n, start + 1 + i);
    InstalledHit(start, s, n, i);
  }

  lemma SealedKeepsOld(start: nat, d: Image, blocks: seq<int>, data: seq<WordBlock>, b: nat)
    requires Transaction(start, d, blocks, data) && IsHome(start, |d|, b) && b !in blocks
    ensures Recovered(start, Sealed(start, d, blocks, data))[b] == d[b]
  {
    var s, n := Sealed(start, d, blocks, data), |blocks|;
    SealedHeader(start, d, blocks, data);
    LoggedAt(start, d, data, n, b);
    InstalledMiss(start, s, n, b);
  }

  lemma SealedRecovers(start: nat, d: Image, blocks: seq<int>, data: seq<WordBlock>)
    requires Transaction(start, d, blocks, data)
    ensures var e := Recovered(start, Sealed(start, d, blocks, data));
            HasNew(d, e, blocks, data) && KeepsOthers(start, d, e, blocks)
  {
    forall i | 0 <= i < |blocks|
      ensures Recovered(start, Sealed(start, d, blocks, data))[blocks[i]] == data[i]
    {
      SealedInstallsNew(start, d, blocks, data, i);
    }
    forall b | 0 <= b < |d| && IsHome(start, |d|, b) && b !in blocks
      ensures Recovered(start, Sealed(start, d, blocks, data))[b] == d[b]
    {
      SealedKeepsOld(start, d, blocks, data, b);
    }
  }

  lemma SealedDiskRecovers(start: nat, d: Image, blocks: seq<int>, data: seq<WordBlock>, i: nat)
    requires Transaction(start, d, blocks, data) && |blocks| < i <= CommitWrites(|blocks|)
    ensures Recovered(start, CommitDisk(start, d, blocks, data, i)) == Recovered(start, Sealed(start, d, blocks, data))
  {
    RecoveryIsRestartable(start, Sealed(start, d, blocks, data), i - |blocks| - 1);
  }

  /** All or nothing: crash a commit after any i of its block writes, crash the recoveries that
      follow any number of times at any of their writes, and let one recovery finish. Every home
      block then holds its old contents, or every one its new contents; the new ones exactly when
      the header write of the commit reached the disk. The log ends empty. */
  lemma AllOrNothing(start: nat, d: Image, blocks: seq<int>, data: seq<WordBlock>, i: nat, cuts: seq<nat>)
    requires Transaction(start, d, blocks, data) && i <= CommitWrites(|blocks|)
    ensures var e := Recovered(start, Crashes(start, CommitDisk(start, d, blocks, data, i), cuts));
            && Count(e[start]) == 0
            && if i <= |blocks| then KeepsOthers(start, d, e, [])
               else HasNew(d, e, blocks, data) && KeepsOthers(start, d, e, blocks)
  {
    var c := CommitDisk(start, d, blocks, data, i);
    CrashesDoNotMatter(start, c, cuts);
    if i <= |blocks| {
      LoggedRecovers(start, d, blocks, data, i);
    } else {
      SealedDiskRecovers(start, d, blocks, data, i);
      SealedRecovers(start, d, blocks, data);
    }
  }
}
