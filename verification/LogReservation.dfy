/** Log space over every interleaving of operations: begin_op's guard, log_write, end_op and the
    two steps that finish a commit, each atomic under log.lock. */
module LogReservation {
  import opened Params

  /** log.lh.block[..lh.n], log.outstanding and log.committing. */
  datatype State = State(blocks: seq<nat>, outstanding: nat, committing: bool)

  /** The test begin_op waits for. */
  predicate Admits(s: State) {
    !s.committing && |s.blocks| + (s.outstanding + 1) * MAXOPBLOCKS <= LOGBLOCKS
  }

  function Begun(s: State): State {
    s.(outstanding := s.outstanding + 1)
  }

  /** The tests of log_write that do not panic. */
  predicate CanLog(s: State) {
    |s.blocks| < LOGBLOCKS && s.outstanding >= 1
  }

  function WithBlock(s: State, b: nat): State {
    if b in s.blocks then s else s.(blocks := s.blocks + [b])
  }

  /** end_op up to its first release: the last operation starts the commit. */
  function Ended(s: State): State
    requires s.outstanding > 0
  {
    s.(outstanding := s.outstanding - 1, committing := s.outstanding == 1)
  }

  function Cleared(s: State): State {
    s.(blocks := [])
  }

  function Reopened(s: State): State {
    s.(committing := false)
  }

  // ---------- runs ----------

  /** left[i]: how many more new blocks the i-th outstanding operation may log. */
  datatype Run = Run(log: State, left: seq<nat>)

  datatype Event = Begin | Append(op: nat, b: nat) | End(op: nat) | Clear | Reopen

  function Initial(): Run {
    Run(State([], 0, false), [])
  }

  /** An operation keeps its promise: a block it adds to the log is one of its MAXOPBLOCKS. */
  predicate KeepsPromise(r: Run, op: nat, b: nat) {
    op < |r.left| && (b in r.log.blocks || r.left[op] > 0)
  }

  predicate Enabled(r: Run, e: Event) {
    match e
    case Begin => Admits(r.log)
    case Append(op, b) => KeepsPromise(r, op, b) && CanLog(r.log)
    case End(op) => op < |r.left| && r.log.outstanding > 0
    case Clear => r.log.committing
    case Reopen => r.log.committing && r.log.blocks == []
  }

  function Step(r: Run, e: Event): Run
    requires Enabled(r, e)
  {
    match e
    case Begin => Run(Begun(r.log), r.left + [MAXOPBLOCKS])
    case Append(op, b) =>
      Run(WithBlock(r.log, b), if b in r.log.blocks then r.left else r.left[op := r.left[op] - 1])
    case End(op) => Run(Ended(r.log), r.left[..op] + r.left[op + 1..])
    case Clear => r.(log := Cleared(r.log))
    case Reopen => r.(log := Reopened(r.log))
  }

  predicate CanRun(r: Run, es: seq<Event>)
    decreases |es|
  {
    es == [] || (Enabled(r, es[0]) && CanRun(Step(r, es[0]), es[1..]))
  }

  function After(r: Run, es: seq<Event>): Run
    requires CanRun(r, es)
    decreases |es|
  {
    if es == [] then r else After(Step(r, es[0]), es[1..])
  }

  function Sum(l: seq<nat>): nat {
    if l == [] then 0 else l[0] + Sum(l[1..])
  }

  lemma {:induction false} SumAppend(l: seq<nat>, m: seq<nat>)
    ensures Sum(l + m) == Sum(l) + Sum(m)
  {
    if l == [] {
      assert l + m == m;
    } else {
      assert (l + m)[1..] == l[1..] + m;
      SumAppend(l[1..], m);
    }
  }

  lemma SumSplit(l: seq<nat>, i: nat, x: nat)
    requires i < |l|
    ensures Sum(l) == Sum(l[..i]) + l[i] + Sum(l[i + 1..])
    ensures Sum(l[i := x]) == Sum(l[..i]) + x + Sum(l[i + 1..])
    ensures Sum(l[..i] + l[i + 1..]) == Sum(l[..i]) + Sum(l[i + 1..])
  {
    assert l[i := x] == l[..i] + ([x] + l[i + 1..]);
    assert l == l[..i] + ([l[i]] + l[i + 1..]);
    SumAppend(l[..i], [x] + l[i + 1..]);
    SumAppend(l[..i], [l[i]] + l[i + 1..]);
    SumAppend(l[..i], l[i + 1..]);
  }

  /** Logged blocks plus unused reservations fit in the log; logged blocks are distinct; nobody
      runs during a commit; an idle log is empty. */
  ghost predicate Inv(r: Run) {
    && |r.left| == r.log.outstanding
    && |r.log.blocks| + Sum(r.left) <= LOGBLOCKS
    && (forall i :: 0 <= i < |r.left| ==> r.left[i] <= MAXOPBLOCKS)
    && (forall i, j :: 0 <= i < j < |r.log.blocks| ==> r.log.blocks[i] != r.log.blocks[j])
    && (r.log.committing ==> r.log.outstanding == 0)
    && (r.log.outstanding == 0 && !r.log.committing ==> r.log.blocks == [])
  }

  lemma {:induction false} SumBounded(l: seq<nat>)
    requires forall i :: 0 <= i < |l| ==> l[i] <= MAXOPBLOCKS
    ensures Sum(l) <= |l| * MAXOPBLOCKS
  {
    if l != [] {
      SumBounded(l[1..]);
    }
  }

  lemma WriteKeepsInv(r: Run, op: nat, b: nat)
    requires Inv(r) && Enabled(r, Append(op, b))
    ensures Inv(Step(r, Append(op, b)))
  {
    if b !in r.log.blocks {
      SumSplit(r.left, op, r.left[op] - 1);
    }
  }

  lemma EndKeepsInv(r: Run, op: nat)
    requires Inv(r) && Enabled(r, End(op))
    ensures Inv(Step(r, End(op)))
  {
    SumSplit(r.left, op, 0);
  }

  lemma StepKeepsInv(r: Run, e: Event)
    requires Inv(r) && Enabled(r, e)
    ensures Inv(Step(r, e))
  {
    match e
    case Begin =>
      SumBounded(r.left);
      SumAppend(r.left, [MAXOPBLOCKS]);
    case Append(op, b) => WriteKeepsInv(r, op, b);
    case End(op) => EndKeepsInv(r, op);
    case Clear =>
    case Reopen =>
  }

  /** In every interleaving of operations that keep their promise the reservations hold. */
  lemma {:induction false} EveryRunFits(r: Run, es: seq<Event>)
    requires Inv(r) && CanRun(r, es)
    ensures Inv(After(r, es))
    decreases |es|
  {
    if es != [] {
      StepKeepsInv(r, es[0]);
      EveryRunFits(Step(r, es[0]), es[1..]);
    }
  }

  /** So an idle log always admits an operation, end_op never finds a commit under way, and a
      block an operation is entitled to add always fits. The one way a promise-keeping operation
      can panic is to log again a block that is already in a completely full log: the size test
      comes before absorption. */
  lemma Consequences(es: seq<Event>, op: nat, b: nat)
    requires CanRun(Initial(), es)
    ensures var r := After(Initial(), es);
            && (r.log.outstanding == 0 && !r.log.committing ==> Admits(r.log))
            && (r.log.outstanding > 0 ==> !r.log.committing)
            && (KeepsPromise(r, op, b) ==> (CanLog(r.log) <==> |r.log.blocks| < LOGBLOCKS))
            && (KeepsPromise(r, op, b) && !CanLog(r.log) ==> b in r.log.blocks && Sum(r.left) == 0)
  {
    EveryRunFits(Initial(), es);
    var r := After(Initial(), es);
    if KeepsPromise(r, op, b) {
      SumSplit(r.left, op, 0);
    }
  }

  // ---------- the panic is reachable ----------

  function Writes(op: nat, from: nat, k: nat): seq<Event> {
    if k == 0 then [] else Writes(op, from, k - 1) + [Append(op, from + k - 1)]
  }

  function Numbers(k: nat): (l: seq<nat>)
    ensures |l| == k && forall i :: 0 <= i < k ==> l[i] == i
  {
    seq(k, i requires 0 <= i => i)
  }

  lemma {:induction false} RunAppend(r: Run, es: seq<Event>, fs: seq<Event>)
    requires CanRun(r, es) && CanRun(After(r, es), fs)
    ensures CanRun(r, es + fs) && After(r, es + fs) == After(After(r, es), fs)
    decreases |es|
  {
    if es == [] {
      assert es + fs == fs;
    } else {
      assert (es + fs)[1..] == es[1..] + fs;
      RunAppend(Step(r, es[0]), es[1..], fs);
    }
  }

  function Holding(from: nat, left: seq<nat>): Run {
    Run(State(Numbers(from), |left|, false), left)
  }

  lemma OneMore(from: nat, left: seq<nat>, op: nat)
    requires op < |left| && left[op] > 0 && from < LOGBLOCKS
    ensures Enabled(Holding(from, left), Append(op, from))
    ensures Step(Holding(from, left), Append(op, from)) == Holding(from + 1, left[op := left[op] - 1])
  {
    assert Numbers(from + 1) == Numbers(from) + [from];
  }

  lemma OneEvent(r: Run, e: Event)
    requires Enabled(r, e)
    ensures CanRun(r, [e]) && After(r, [e]) == Step(r, e)
  {
    assert [e][1..] == [];
    assert CanRun(Step(r, e), []);
  }

  /** Operation op logs its next k blocks, numbered on from those already logged. */
  lemma {:induction false} Fill(left: seq<nat>, op: nat, from: nat, k: nat)
    requires op < |left| && left[op] >= k && from + k <= LOGBLOCKS
    ensures CanRun(Holding(from, left), Writes(op, from, k))
    ensures After(Holding(from, left), Writes(op, from, k)) == Holding(from + k, left[op := left[op] - k])
  {
    if k > 0 {
      Fill(left, op, from, k - 1);
      var rest := left[op := left[op] - (k - 1)];
      OneMore(from + k - 1, rest, op);
      OneEvent(Holding(from + k - 1, rest), Append(op, from + k - 1));
      RunAppend(Holding(from, left), Writes(op, from, k - 1), [Append(op, from + k - 1)]);
      assert rest[op := rest[op] - 1] == left[op := left[op] - k];
    } else {
      assert left[op := left[op] - 0] == left;
    }
  }

  lemma ThreeBegin()
    ensures CanRun(Initial(), [Begin, Begin, Begin])
    ensures After(Initial(), [Begin, Begin, Begin]) == Holding(0, [10, 10, 10])
  {
    var es := [Begin, Begin, Begin];
    assert es[1..] == [Begin, Begin] && [Begin, Begin][1..] == [Begin] && [Begin][1..] == [];
    var a := Step(Initial(), Begin);
    var b := Step(a, Begin);
    var c := Step(b, Begin);
    assert CanRun(c, []) && CanRun(b, [Begin]) && CanRun(a, [Begin, Begin]);
    assert After(c, []) == c && After(b, [Begin]) == c && After(a, [Begin, Begin]) == c;
    assert State([], 3, false).blocks == Numbers(0);
  }

  /** The log holds blocks 0 .. from - 1 and the operations may still log left blocks. */
  ghost predicate Filled(es: seq<Event>, from: nat, left: seq<nat>) {
    CanRun(Initial(), es) && After(Initial(), es) == Holding(from, left)
  }

  lemma FillMore(es: seq<Event>, from: nat, left: seq<nat>, op: nat)
    requires Filled(es, from, left) && from + 10 <= LOGBLOCKS && op < |left| && left[op] == 10
    ensures Filled(es + Writes(op, from, 10), from + 10, left[op := 0])
  {
    Fill(left, op, from, 10);
    RunAppend(Initial(), es, Writes(op, from, 10));
  }

  /** Three operations that each log ten blocks fill the log; when one of them then logs a block
      again it panics, although the block needs no space. */
  lemma AbsorptionPanics() returns (es: seq<Event>)
    ensures CanRun(Initial(), es)
    ensures var r := After(Initial(), es); KeepsPromise(r, 0, 0) && 0 in r.log.blocks && !CanLog(r.log)
  {
    ThreeBegin();
    var l0: seq<nat> := [10, 10, 10];
    var l1 := l0[0 := 0];
    var l2 := l1[1 := 0];
    es := [Begin, Begin, Begin];
    FillMore(es, 0, l0, 0);
    es := es + Writes(0, 0, 10);
    FillMore(es, 10, l1, 1);
    es := es + Writes(1, 10, 10);
    FillMore(es, 20, l2, 2);
    es := es + Writes(2, 20, 10);
    FullPanics(es, l2[2 := 0]);
  }

  lemma FullPanics(es: seq<Event>, left: seq<nat>)
    requires Filled(es, LOGBLOCKS, left) && |left| > 0
    ensures var r := After(Initial(), es); KeepsPromise(r, 0, 0) && 0 in r.log.blocks && !CanLog(r.log)
  {
    assert Numbers(LOGBLOCKS)[0] == 0;
  }
}
