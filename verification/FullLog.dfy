/** A run of the log that fills it completely, and what its commit does. */
module FullLog {
  import opened Params
  import opened RedoLog
  import opened BufferCache
  import opened LogReservation
  import opened Log

  /** The log l holds the blocks home .. home + k - 1, and nothing but their pins is held. */
  ghost predicate Holding(l: Log, home: nat, k: nat)
    reads l, l.block, l.cache, l.cache.buf
  {
    && home > l.start + LOGBLOCKS && home + LOGBLOCKS <= |l.cache.disk|
    && |l.cache.refs| == k && l.edited == {} && !l.committing && l.Blocks() == Range(home, k)
  }

  function Range(home: nat, k: nat): (r: seq<nat>)
    ensures |r| == k && home + k !in r
  {
    seq(k, i requires 0 <= i < k => home + i)
  }

  lemma RangeMore(home: nat, k: nat)
    ensures Range(home, k) + [home + k] == Range(home, k + 1)
  {
  }

  /** The next block is changed and logged. */
  method LogNext(l: Log, home: nat, k: nat)
    requires l.Inv() && Holding(l, home, k) && k < LOGBLOCKS && l.outstanding > 0
    modifies l, l.block, l.cache, l.cache.buf
    ensures l.Inv() && Holding(l, home, k + 1) && l.outstanding == old(l.outstanding)
  {
    RangeMore(home, k);
    var ok := l.Change(home + k, l.cache.disk[home + k]);
  }

  /** An operation that logs ten blocks. */
  method TenBlocks(l: Log, home: nat, k: nat)
    requires l.Inv() && Holding(l, home, k) && k + MAXOPBLOCKS <= LOGBLOCKS && l.outstanding > 0
    modifies l, l.block, l.cache, l.cache.buf
    ensures l.Inv() && Holding(l, home, k + MAXOPBLOCKS) && l.outstanding == old(l.outstanding)
  {
    var i := 0;
    while i < MAXOPBLOCKS
      invariant i <= MAXOPBLOCKS && l.Inv() && Holding(l, home, k + i) && l.outstanding == old(l.outstanding)
    {
      LogNext(l, home, k + i);
      i := i + 1;
    }
  }

  /** The empty log admits three operations at once. */
  method BeginThree(l: Log)
    requires l.Inv() && l.State() == State([], 0, false)
    modifies l`outstanding
    ensures l.Inv() && l.State() == State([], 3, false)
  {
    var admitted := l.BeginOp();
    admitted := l.BeginOp();
    admitted := l.BeginOp();
  }

  method EndThree(l: Log)
    requires l.Inv() && l.outstanding == 3 && !l.committing && l.edited == {}
    modifies l`outstanding, l`committing
    ensures l.Inv() && l.State() == State(old(l.Blocks()), 0, true)
  {
    var ok, last := l.EndOp();
    ok, last := l.EndOp();
    ok, last := l.EndOp();
  }

  /** Three operations are admitted together and each logs ten blocks: the log is full and about to be committed. */
  method Fill(start: nat, image: Image) returns (l: Log)
    requires WellFormed(start, image) && start + 2 * LOGBLOCKS < |image|
    ensures fresh(l) && fresh(l.cache) && fresh(l.cache.buf) && fresh(l.block)
    ensures l.Inv() && |l.Blocks()| == NBUF && l.outstanding == 0 && l.committing
  {
    l := Log.Boot(start, image);
    var home := start + LOGBLOCKS + 1;
    assert l.Blocks() == Range(home, 0);
    BeginThree(l);
    FillThree(l, home);
    EndThree(l);
  }

  method FillThree(l: Log, home: nat)
    requires l.Inv() && Holding(l, home, 0) && l.outstanding == 3
    modifies l, l.block, l.cache, l.cache.buf
    ensures l.Inv() && Holding(l, home, 30) && l.outstanding == 3
  {
    TenBlocks(l, home, 0);
    TenBlocks(l, home, 10);
    TenBlocks(l, home, 20);
  }

  /** That commit panics: there is no buffer left for the log's own blocks. */
  method FullLogPanics(start: nat, image: Image) returns (l: Log, ok: bool)
    requires WellFormed(start, image) && start + 2 * LOGBLOCKS < |image|
    ensures !ok
  {
    l := Fill(start, image);
    ok := l.CommitAndReopen();
  }
}
