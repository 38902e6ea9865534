/** Any series of calls on any processes does what it would do if every process had its memory to itself: an array of
    bytes that starts as zeros, or as a copy of its parent's, and that only its own calls change. */
module ProcessRuns {
  import opened Basics
  import opened Sv39
  import opened PageTables
  import opened AddressSpaces
  import opened Vm
  import opened UserMemory
  import opened ProcessSize
  import P = Processes

  // ---------- processes with memory of their own ----------

  type Bytes = nat -> nat

  datatype View = View(sz: nat, bytes: Bytes)

  function Put(f: Bytes, at: nat, src: seq<nat>): Bytes {
    (va: nat) => if at <= va < at + |src| then src[va - at] else f(va)
  }

  function Written(v: View, at: nat, src: seq<nat>): View {
    v.(bytes := Put(v.bytes, at, src))
  }

  const ZERO_BYTES: Bytes := (va: nat) => 0

  function CutAt(f: Bytes, lim: nat): Bytes {
    (va: nat) => if va >= lim then 0 else f(va)
  }

  /** A new size: when it is smaller, what lies beyond its last page is lost. */
  function Resize(v: View, n: int): View {
    var sz := if v.sz + n >= 0 then v.sz + n else v.sz;
    View(sz, if n < 0 then CutAt(v.bytes, RoundUp(sz)) else v.bytes)
  }

  function Without<T>(s: seq<T>, i: nat): (r: seq<T>)
    requires i < |s|
    ensures |r| == |s| - 1 && forall j :: 0 <= j < |r| ==> r[j] == s[if j < i then j else j + 1]
  {
    s[..i] + s[i + 1..]
  }

  datatype Call =
    | UserInit
    | Fork(who: nat)
    | Exit(who: nat)
    | Sbrk(who: nat, n: int, eager: bool)
    | Read(who: nat, va: nat, len: nat)
    | Write(who: nat, va: nat, src: seq<nat>)

  /** There is such a process, and sbrk keeps its size clear of the kernel pages. */
  ghost predicate Allowed(v: seq<View>, call: Call) {
    call.UserInit? ||
    (&& call.who < |v|
     && (call.Sbrk? ==> -TWO31 <= call.n < TWO31 && (call.eager || v[call.who].sz + call.n <= TRAPFRAME)))
  }

  /** What a call may do: making a process and growing may fail, and a read or a write may stop after some bytes. */
  ghost predicate Step(v: seq<View>, call: Call, got: seq<nat>, w: seq<View>)
    requires Allowed(v, call)
  {
    match call
    case UserInit => w == v || w == v + [View(0, ZERO_BYTES)]
    case Fork(i) => w == v || w == v + [v[i]]
    case Exit(i) => w == Without(v, i)
    case Sbrk(i, n, eager) => w == v[i := Resize(v[i], n)] || (w == v && eager && n > 0)
    case Read(i, va, len) => w == v && |got| <= len && forall x :: 0 <= x < |got| ==> got[x] == v[i].bytes(va + x)
    case Write(i, va, src) => exists done: nat :: done <= |src| && w == v[i := Written(v[i], va, src[..done])]
  }

  /** Each call of a run does its step; calls that are not allowed are left out. */
  ghost predicate StepAt(trace: seq<seq<View>>, calls: seq<Call>, got: seq<seq<nat>>, t: nat) {
    && t < |calls| && t < |got| && t + 1 < |trace|
    && if Allowed(trace[t], calls[t]) then Step(trace[t], calls[t], got[t], trace[t + 1]) else trace[t + 1] == trace[t]
  }

  // ---------- one process ----------

  /** The process of root has a table of its own, clear of the kernel pages, and sees v. */
  ghost predicate Shows(m: Memory, b: Book, root: nat, trapframe: nat, v: View) {
    && Space(b, root, trapframe, v.sz) && v.sz <= TRAPFRAME
    && forall va: nat {:trigger UByte(m, b, root, va)} :: va < TRAPFRAME ==> UByte(m, b, root, va) == v.bytes(va)
  }

  /** What one process does is not seen by another. */
  lemma OthersShow(m: Memory, b: Book, n: Memory, c: Book, root: nat, trapframe: nat, other: nat, frame: nat, v: View)
    requires Shows(m, b, other, frame, v) && Aside(b, c, root, trapframe) && other != root && frame != trapframe
    requires BesidesSame(m, b, n, c, root)
    ensures Shows(n, c, other, frame, v)
  {
    AsideSpace(b, c, root, trapframe, other, frame, v.sz);
  }

  /** The bytes of every process but that of root are as they were. */
  ghost predicate BesidesSame(m: Memory, b: Book, n: Memory, c: Book, root: nat) {
    forall r: nat, va: nat {:trigger UByte(n, c, r, va)} :: r in b.flat && r != root && va < TRAPFRAME ==>
      UByte(n, c, r, va) == UByte(m, b, r, va)
  }

  lemma SameShow(m: Memory, b: Book, n: Memory, c: Book, root: nat, trapframe: nat, v: View)
    requires Shows(m, b, root, trapframe, v) && P.SameBytes(m, b, n, c) && c.flat == b.flat && c.role == b.role
    ensures Shows(n, c, root, trapframe, v)
  {
  }

  lemma WroteShow(m: Memory, b: Book, n: Memory, c: Book, root: nat, trapframe: nat, v: View, at: nat, src: seq<nat>)
    requires Shows(m, b, root, trapframe, v) && Wrote(m, b, n, c, root, at, src) && Space(c, root, trapframe, v.sz)
    ensures Shows(n, c, root, trapframe, Written(v, at, src))
  {
  }

  lemma ResizedShow(m: Memory, b: Book, n: Memory, c: Book, root: nat, trapframe: nat, v: View, change: int, sz: nat,
                    ok: bool)
    requires Shows(m, b, root, trapframe, v) && Resized(m, b, n, c, root, change < 0, sz) && (ok || change > 0)
    requires Space(c, root, trapframe, sz) && sz <= TRAPFRAME
    requires sz == if ok && v.sz + change >= 0 then v.sz + change else v.sz
    requires Aside(b, c, root, trapframe)
    ensures Shows(n, c, root, trapframe, if ok then Resize(v, change) else v) && BesidesSame(m, b, n, c, root)
  {
  }

  /** A call for process p, which saw v before, and what it leaves of the others. */
  twostate predicate Answers(k: Kernel, p: Process, w: View)
    reads k, p
  {
    && k.Valid() && Shows(k.mem, k.book, p.root, p.trapframe, w) && p.sz == w.sz
    && Aside(old(k.book), k.book, p.root, p.trapframe)
    && BesidesSame(old(k.mem), old(k.book), k.mem, k.book, p.root)
  }

  ghost predicate Ready(k: Kernel, p: Process, v: View)
    reads k, p
  {
    k.Valid() && Shows(k.mem, k.book, p.root, p.trapframe, v) && p.sz == v.sz
  }

  /** Process p is new, on pages that were free. */
  ghost predicate Joins(b: Book, c: Book, p: Process) {
    && p.root !in b.flat && p.trapframe in b.role && b.role[p.trapframe] == Free
    && Aside(b, c, p.root, p.trapframe)
  }

  /** All of a new process's memory reads as zero. */
  lemma NewShows(b: Book, n: Memory, c: Book, root: nat, trampoline: nat, trapframe: nat)
    requires P.Born(b, c, root, trampoline, trapframe)
    ensures Shows(n, c, root, trapframe, View(0, ZERO_BYTES)) && Aside(b, c, root, trapframe)
  {
    P.BornSpace(b, c, root, trampoline, trapframe);
  }

  lemma ChildShows(m: Memory, head: nat, b: Book, n: Memory, c: Book, root: nat, trapframe: nat, child: nat, frame: nat,
                   v: View)
    requires Inv(m, head, b) && Shows(m, b, root, trapframe, v) && P.Offspring(m, b, n, c, root, child, frame)
    requires Space(c, child, frame, v.sz)
    ensures Shows(n, c, child, frame, v) && frame in b.role && b.role[frame] == Free
  {
    FreePagesAreFree(m, head, b, frame);
  }

  /** kfork, which does not panic here: the size keeps clear of the kernel pages. */
  method Forks(k: Kernel, p: Process, trampoline: nat, ghost v: View) returns (child: Process?)
    requires Ready(k, p, v)
    modifies k
    ensures k.Valid() && P.SameBytes(old(k.mem), old(k.book), k.mem, k.book)
    ensures child == null ==> k.book.flat == old(k.book.flat) && k.book.role == old(k.book.role)
    ensures child != null ==> fresh(child) && Ready(k, child, v) && Joins(old(k.book), k.book, child)
  {
    ghost var m, head, b := k.mem, k.freelist, k.book;
    var panicked;
    child, panicked := P.Fork(k, p, trampoline);
    assert !panicked;
    if child != null {
      ChildShows(m, head, b, k.mem, k.book, p.root, p.trapframe, child.root, child.trapframe, v);
    }
  }

  /** copyout to a process. */
  method OutTo(k: Kernel, p: Process, va: nat, src: seq<nat>, ghost v: View) returns (ghost done: nat)
    requires Ready(k, p, v)
    modifies k
    ensures done <= |src| && Answers(k, p, Written(v, va, src[..done]))
  {
    ghost var m, b := k.mem, k.book;
    SpaceIsProc(b, p.root, p.trapframe, p.sz);
    var ok;
    ok, done := CopyOut(k, p.root, va, src, p.sz);
    FaultedSpace(b, k.book, p.root, p.trapframe, p.sz);
    WroteShow(m, b, k.mem, k.book, p.root, p.trapframe, v, va, src[..done]);
  }

  /** copyin from a process. */
  method InFrom(k: Kernel, p: Process, va: nat, len: nat, ghost v: View) returns (got: seq<nat>)
    requires Ready(k, p, v)
    modifies k
    ensures Answers(k, p, v)
    ensures |got| <= len && forall x :: 0 <= x < |got| ==> got[x] == v.bytes(va + x)
  {
    ghost var m, b := k.mem, k.book;
    SpaceIsProc(b, p.root, p.trapframe, p.sz);
    var ok;
    ok, got := CopyIn(k, p.root, va, len, p.sz);
    FaultedSpace(b, k.book, p.root, p.trapframe, p.sz);
    WroteShow(m, b, k.mem, k.book, p.root, p.trapframe, v, va, []);
    assert got == UBytes(m, b, p.root, va, |got|);
  }

  /** sys_sbrk, a call that keeps the size clear of the kernel pages. */
  method Resizes(k: Kernel, p: Process, n: int, eager: bool, ghost v: View) returns (ok: bool, panicked: bool)
    requires Ready(k, p, v) && -TWO31 <= n < TWO31 && (eager || p.sz + n <= TRAPFRAME)
    modifies k, p
    ensures panicked ==> eager && n > 0 && v.sz + n > TRAPFRAME
    ensures !panicked ==> (ok || (eager && n > 0)) && Answers(k, p, if ok then Resize(v, n) else v)
  {
    ghost var m, b := k.mem, k.book;
    var r;
    r, panicked := p.Sbrk(k, n, eager);
    ok := r >= 0;
    if panicked {
      return;
    }
    assert !FreesTrapframe(v.sz, n);
    ResizedShow(m, b, k.mem, k.book, p.root, p.trapframe, v, n, p.sz, ok);
  }

  // ---------- the processes of a kernel ----------

  ghost predicate Distinct(procs: seq<Process>) {
    forall i, j {:trigger procs[i], procs[j]} :: 0 <= i < j < |procs| ==>
      procs[i] != procs[j] && procs[i].root != procs[j].root && procs[i].trapframe != procs[j].trapframe
  }

  ghost predicate ShowsAt(m: Memory, b: Book, procs: seq<Process>, views: seq<View>, i: nat) {
    i < |procs| && i < |views| && Shows(m, b, procs[i].root, procs[i].trapframe, views[i])
  }

  ghost predicate AllShow(m: Memory, b: Book, procs: seq<Process>, views: seq<View>) {
    |procs| == |views| && forall i {:trigger ShowsAt(m, b, procs, views, i)} :: 0 <= i < |procs| ==>
      ShowsAt(m, b, procs, views, i)
  }

  /** Process i has made a call. */
  lemma OneAnswers(m: Memory, b: Book, n: Memory, c: Book, procs: seq<Process>, views: seq<View>, i: nat, w: View)
    requires AllShow(m, b, procs, views) && Distinct(procs) && i < |procs|
    requires Shows(n, c, procs[i].root, procs[i].trapframe, w) && Aside(b, c, procs[i].root, procs[i].trapframe)
    requires BesidesSame(m, b, n, c, procs[i].root)
    ensures AllShow(n, c, procs, views[i := w])
  {
    var now := views[i := w];
    forall j | 0 <= j < |procs|
      ensures ShowsAt(n, c, procs, now, j)
    {
      if j != i {
        assert ShowsAt(m, b, procs, views, j);
        assert procs[j].root != procs[i].root && procs[j].trapframe != procs[i].trapframe;
        OthersShow(m, b, n, c, procs[i].root, procs[i].trapframe, procs[j].root, procs[j].trapframe, views[j]);
      }
    }
  }

  /** Process i is gone. */
  lemma OneGone(m: Memory, b: Book, n: Memory, c: Book, procs: seq<Process>, views: seq<View>, i: nat)
    requires AllShow(m, b, procs, views) && Distinct(procs) && i < |procs|
    requires Released(b, c, procs[i].root, procs[i].trapframe) && CutBytes(m, b, n, c, procs[i].root, 0)
    ensures AllShow(n, c, Without(procs, i), Without(views, i)) && Distinct(Without(procs, i))
  {
    var left, seen := Without(procs, i), Without(views, i);
    forall j | 0 <= j < |left|
      ensures ShowsAt(n, c, left, seen, j)
    {
      var at := if j < i then j else j + 1;
      assert ShowsAt(m, b, procs, views, at) && procs[at] == left[j];
      assert procs[at].root != procs[i].root && procs[at].trapframe != procs[i].trapframe;
      OthersShow(m, b, n, c, procs[i].root, procs[i].trapframe, left[j].root, left[j].trapframe, seen[j]);
    }
  }

  lemma OneMore(m: Memory, head: nat, b: Book, n: Memory, c: Book, procs: seq<Process>, views: seq<View>, p: Process,
                v: View)
    requires Inv(m, head, b) && AllShow(m, b, procs, views) && Distinct(procs) && p !in procs
    requires Joins(b, c, p) && P.SameBytes(m, b, n, c) && Shows(n, c, p.root, p.trapframe, v)
    ensures AllShow(n, c, procs + [p], views + [v]) && Distinct(procs + [p])
  {
    var all, seen := procs + [p], views + [v];
    forall j | 0 <= j < |all|
      ensures ShowsAt(n, c, all, seen, j)
      ensures j < |procs| ==> all[j].root != p.root && all[j].trapframe != p.trapframe
    {
      if j < |procs| {
        assert ShowsAt(m, b, procs, views, j);
        OthersShow(m, b, n, c, p.root, p.trapframe, procs[j].root, procs[j].trapframe, views[j]);
      }
    }
  }

  lemma NoneChanged(m: Memory, b: Book, n: Memory, c: Book, procs: seq<Process>, views: seq<View>)
    requires AllShow(m, b, procs, views) && P.SameBytes(m, b, n, c) && c.flat == b.flat && c.role == b.role
    ensures AllShow(n, c, procs, views)
  {
    forall j | 0 <= j < |procs|
      ensures ShowsAt(n, c, procs, views, j)
    {
      assert ShowsAt(m, b, procs, views, j);
      SameShow(m, b, n, c, procs[j].root, procs[j].trapframe, views[j]);
    }
  }

  class System {
    const k: Kernel
    const trampoline: nat
    var procs: seq<Process>
    ghost var views: seq<View>

    /** Every process has a table and a trapframe page of its own, and sees its view. */
    ghost predicate Good()
      reads this, k, procs
    {
      && k.Valid() && AllShow(k.mem, k.book, procs, views) && Distinct(procs)
      && forall i {:trigger procs[i]} :: 0 <= i < |procs| ==> procs[i].sz == views[i].sz
    }

    constructor (k: Kernel, trampoline: nat)
      requires k.Valid()
      ensures this.k == k && this.trampoline == trampoline && Good() && procs == []
    {
      this.k, this.trampoline := k, trampoline;
      procs, views := [], [];
    }

    /** userinit: a process of size 0. */
    method UserInit()
      requires Good()
      modifies this, k
      ensures Good() && Step(old(views), Call.UserInit, [], views)
      ensures forall j :: 0 <= j < |procs| ==> procs[j] in old(procs) || fresh(procs[j])
    {
      ghost var m, head, b := k.mem, k.freelist, k.book;
      var p := P.AllocProc(k, trampoline);
      if p == null {
        NoneChanged(m, b, k.mem, k.book, procs, views);
        return;
      }
      ghost var v := View(0, ZERO_BYTES);
      NewShows(b, k.mem, k.book, p.root, trampoline, p.trapframe);
      OneMore(m, head, b, k.mem, k.book, procs, views, p, v);
      procs, views := procs + [p], views + [v];
    }

    method Fork(i: nat)
      requires Good() && i < |procs|
      modifies this, k
      ensures Good() && Step(old(views), Call.Fork(i), [], views)
      ensures forall j :: 0 <= j < |procs| ==> procs[j] in old(procs) || fresh(procs[j])
    {
      ghost var m, head, b := k.mem, k.freelist, k.book;
      assert ShowsAt(m, b, procs, views, i);
      var child := Forks(k, procs[i], trampoline, views[i]);
      if child == null {
        NoneChanged(m, b, k.mem, k.book, procs, views);
        return;
      }
      OneMore(m, head, b, k.mem, k.book, procs, views, child, views[i]);
      procs, views := procs + [child], views + [views[i]];
    }

    method Exit(i: nat)
      requires Good() && i < |procs|
      modifies this, k
      ensures Good() && Step(old(views), Call.Exit(i), [], views) && procs == Without(old(procs), i)
    {
      ghost var m, b := k.mem, k.book;
      assert ShowsAt(m, b, procs, views, i);
      procs[i].FreeProc(k);
      OneGone(m, b, k.mem, k.book, procs, views, i);
      procs, views := Without(procs, i), Without(views, i);
    }

    method Sbrk(i: nat, n: int, eager: bool) returns (panicked: bool)
      requires Good() && i < |procs| && -TWO31 <= n < TWO31 && (eager || procs[i].sz + n <= TRAPFRAME)
      modifies this, k, procs
      ensures panicked ==> eager && n > 0 && old(procs[i].sz) + n > TRAPFRAME
      ensures !panicked ==> Good() && Step(old(views), Call.Sbrk(i, n, eager), [], views) && procs == old(procs)
    {
      ghost var m, b := k.mem, k.book;
      assert ShowsAt(m, b, procs, views, i);
      var ok;
      ok, panicked := Resizes(k, procs[i], n, eager, views[i]);
      if !panicked {
        ghost var w := if ok then Resize(views[i], n) else views[i];
        OneAnswers(m, b, k.mem, k.book, procs, views, i, w);
        views := views[i := w];
      }
    }

    method Read(i: nat, va: nat, len: nat) returns (got: seq<nat>)
      requires Good() && i < |procs|
      modifies k
      ensures Good() && views == old(views) && Step(old(views), Call.Read(i, va, len), got, views)
    {
      ghost var m, b := k.mem, k.book;
      assert ShowsAt(m, b, procs, views, i);
      got := InFrom(k, procs[i], va, len, views[i]);
      OneAnswers(m, b, k.mem, k.book, procs, views, i, views[i]);
      assert views[i := views[i]] == views;
    }

    method Write(i: nat, va: nat, src: seq<nat>)
      requires Good() && i < |procs|
      modifies this, k, procs
      ensures Good() && Step(old(views), Call.Write(i, va, src), [], views) && procs == old(procs)
    {
      ghost var m, b := k.mem, k.book;
      assert ShowsAt(m, b, procs, views, i);
      ghost var done := OutTo(k, procs[i], va, src, views[i]);
      OneAnswers(m, b, k.mem, k.book, procs, views, i, Written(views[i], va, src[..done]));
      views := views[i := Written(views[i], va, src[..done])];
    }
  }

  /** One call on a system. */
  method Do(s: System, call: Call) returns (got: seq<nat>, panicked: bool)
    requires s.Good() && Allowed(s.views, call)
    modifies s, s.k, s.procs
    ensures panicked ==> call.Sbrk? && call.eager && call.n > 0
    ensures !panicked ==> s.Good() && Step(old(s.views), call, got, s.views)
    ensures !panicked ==> forall j :: 0 <= j < |s.procs| ==> s.procs[j] in old(s.procs) || fresh(s.procs[j])
  {
    got, panicked := [], false;
    match call {
      case UserInit => s.UserInit();
      case Fork(i) => s.Fork(i);
      case Exit(i) => s.Exit(i);
      case Sbrk(i, n, eager) => panicked := s.Sbrk(i, n, eager);
      case Read(i, va, len) => got := s.Read(i, va, len);
      case Write(i, va, src) => s.Write(i, va, src);
    }
  }

  predicate CanDo(s: System, call: Call): (can: bool)
    requires s.Good()
    reads s, s.k, s.procs
    ensures can <==> Allowed(s.views, call)
  {
    call.UserInit? ||
    (&& call.who < |s.procs|
     && (call.Sbrk? ==> -TWO31 <= call.n < TWO31 && (call.eager || s.procs[call.who].sz + call.n <= TRAPFRAME)))
  }

  /** Any run from boot on, with the pages from first up to last, which ends early only with a panic in an eager sbrk:
      every process sees a memory of its own. */
  method AnyRun(first: nat, last: nat, trampoline: nat, calls: seq<Call>)
    returns (s: System, got: seq<seq<nat>>, panicked: bool, ghost trace: seq<seq<View>>)
    requires 0 < first <= last
    ensures |trace| == |got| + 1 && trace[0] == [] && |got| <= |calls|
    ensures forall t {:trigger StepAt(trace, calls, got, t)} :: 0 <= t < |got| ==> StepAt(trace, calls, got, t)
    ensures !panicked ==> |got| == |calls| && s.Good() && s.views == trace[|got|]
    ensures panicked ==> |got| < |calls| && calls[|got|].Sbrk? && calls[|got|].eager && calls[|got|].n > 0
  {
    var k := new Kernel(first, last);
    s := new System(k, trampoline);
    got, panicked, trace := [], false, [s.views];
    while |got| < |calls|
      invariant fresh(s) && fresh(s.k) && (forall i :: 0 <= i < |s.procs| ==> fresh(s.procs[i]))
      invariant |trace| == |got| + 1 && trace[0] == [] && |got| <= |calls|
      invariant forall t {:trigger StepAt(trace, calls, got, t)} :: 0 <= t < |got| ==> StepAt(trace, calls, got, t)
      invariant s.Good() && s.views == trace[|got|]
      decreases |calls| - |got|
    {
      ghost var trace0, got0 := trace, got;
      var call, now := calls[|got|], [];
      if CanDo(s, call) {
        now, panicked := Do(s, call);
        if panicked {
          return;
        }
      }
      got, trace := got + [now], trace + [s.views];
      forall t | 0 <= t < |got|
        ensures StepAt(trace, calls, got, t)
      {
        assert t < |got0| ==> StepAt(trace0, calls, got0, t);
      }
    }
  }
}
