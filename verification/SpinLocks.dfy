/** Spinlocks and the nesting of interrupt disabling, as interleaved steps of the CPUs. */
module SpinLocks {
  import opened Basics

  /** Where a CPU is in acquire or release: about to swap, about to record itself, or about to unlock. */
  datatype Pc = Away | Spinning(l: nat) | Won(l: nat) | Leaving(l: nat)

  /** Per lock: locked and cpu. Per CPU: noff, intena, the interrupt bit, and where it is.
      For the proofs: who won each lock, the push_offs of other callers, and how interrupts were
      when push_off was last called outermost. */
  datatype State = State(
    locked: seq<bool>, cpu: seq<Option<nat>>,
    noff: seq<nat>, intena: seq<bool>, intr: seq<bool>, pc: seq<Pc>,
    owner: seq<Option<nat>>, pushes: seq<nat>, outside: seq<bool>)

  /** Enter and Unlock are acquire's push_off and check and release's last store and pop_off. */
  datatype Event =
    | Toggle(c: nat, on: bool)
    | Push(c: nat)
    | Pop(c: nat)
    | Enter(c: nat, l: nat)
    | Swap(c: nat)
    | Record(c: nat)
    | Clear(c: nat, l: nat)
    | Unlock(c: nat)

  // ---------- the code ----------

  /** holding */
  predicate Holding(s: State, c: nat, l: nat)
    requires l < |s.locked| == |s.cpu|
  {
    s.locked[l] && s.cpu[l] == Some(c)
  }

  predicate Shape(s: State) {
    && |s.locked| == |s.cpu| == |s.owner|
    && |s.noff| == |s.intena| == |s.intr| == |s.pc| == |s.pushes| == |s.outside|
  }

  function PushOff(s: State, c: nat): (t: State)
    requires Shape(s) && c < |s.noff|
    ensures Shape(t)
  {
    s.(intr := s.intr[c := false],
       intena := if s.noff[c] == 0 then s.intena[c := s.intr[c]] else s.intena,
       noff := s.noff[c := s.noff[c] + 1],
       outside := if s.noff[c] == 0 then s.outside[c := s.intr[c]] else s.outside)
  }

  /** pop_off panics otherwise. */
  predicate CanPop(s: State, c: nat)
    requires Shape(s) && c < |s.noff|
  {
    !s.intr[c] && s.noff[c] >= 1
  }

  function PopOff(s: State, c: nat): (t: State)
    requires Shape(s) && c < |s.noff| && CanPop(s, c)
    ensures Shape(t)
  {
    var noff := s.noff[c] - 1;
    s.(noff := s.noff[c := noff], intr := if noff == 0 && s.intena[c] then s.intr[c := true] else s.intr)
  }

  /** When a step can be taken. The last conjunct of Enter and of Clear is the check that otherwise panics. */
  predicate Enabled(s: State, e: Event) {
    && Shape(s) && e.c < |s.pc|
    && match e
       case Toggle(c, _) => s.pc[c] == Away && s.noff[c] == 0
       case Push(c) => s.pc[c] == Away
       case Pop(c) => s.pc[c] == Away && s.pushes[c] > 0
       case Enter(c, l) => s.pc[c] == Away && l < |s.locked| && !Holding(s, c, l)
       case Swap(c) => s.pc[c].Spinning? && s.pc[c].l < |s.locked| && !s.locked[s.pc[c].l]
       case Record(c) => s.pc[c].Won? && s.pc[c].l < |s.locked|
       case Clear(c, l) => s.pc[c] == Away && l < |s.locked| && Holding(s, c, l)
       case Unlock(c) => s.pc[c].Leaving? && s.pc[c].l < |s.locked|
  }

  /** None is a panic of pop_off. */
  function Step(s: State, e: Event): Option<State>
    requires Enabled(s, e)
  {
    var c := e.c;
    match e
    case Toggle(_, on) => Some(s.(intr := s.intr[c := on], outside := s.outside[c := on]))
    case Push(_) => var t := PushOff(s, c); Some(t.(pushes := t.pushes[c := t.pushes[c] + 1]))
    case Pop(_) =>
      if CanPop(s, c) then var t := PopOff(s, c); Some(t.(pushes := t.pushes[c := s.pushes[c] - 1])) else None
    case Enter(_, l) => var t := PushOff(s, c); Some(t.(pc := t.pc[c := Spinning(l)]))
    case Swap(_) =>
      var l := s.pc[c].l;
      Some(s.(locked := s.locked[l := true], owner := s.owner[l := Some(c)], pc := s.pc[c := Won(l)]))
    case Record(_) => Some(s.(cpu := s.cpu[s.pc[c].l := Some(c)], pc := s.pc[c := Away]))
    case Clear(_, l) => Some(s.(cpu := s.cpu[l := None], pc := s.pc[c := Leaving(l)]))
    case Unlock(_) =>
      var l := s.pc[c].l;
      var t := s.(locked := s.locked[l := false], owner := s.owner[l := None], pc := s.pc[c := Away]);
      if CanPop(t, c) then Some(PopOff(t, c)) else None
  }

  /** Boot: no lock is taken; interrupts may be on or off. */
  function Start(locks: nat, intr: seq<bool>): State {
    var n := |intr|;
    State(seq(locks, _ => false), seq(locks, _ => None), seq(n, _ => 0), seq(n, _ => false), intr, seq(n, _ => Away),
          seq(locks, _ => None), seq(n, _ => 0), intr)
  }

  /** t can be reached from s by the steps es without a panic. */
  predicate Run(s: State, es: seq<Event>, t: State)
    decreases |es|
  {
    if es == [] then s == t
    else Enabled(s, es[0]) && Step(s, es[0]).Some? && Run(Step(s, es[0]).value, es[1..], t)
  }

  // ---------- the invariant ----------

  /** How many of the locks c has won. */
  function Count(owner: seq<Option<nat>>, c: nat): nat {
    if owner == [] then 0
    else Count(owner[..|owner| - 1], c) + if owner[|owner| - 1] == Some(c) then 1 else 0
  }

  lemma {:induction false} CountUpdate(owner: seq<Option<nat>>, l: nat, v: Option<nat>, c: nat)
    requires l < |owner|
    ensures Count(owner[l := v], c) + (if owner[l] == Some(c) then 1 else 0) ==
              Count(owner, c) + (if v == Some(c) then 1 else 0)
    decreases |owner|
  {
    var n := |owner| - 1;
    if l < n {
      CountUpdate(owner[..n], l, v, c);
      assert owner[l := v][..n] == owner[..n][l := v];
    } else {
      assert owner[l := v][..n] == owner[..n];
    }
  }

  lemma {:induction false} CountSome(owner: seq<Option<nat>>, l: nat, c: nat)
    requires l < |owner| && owner[l] == Some(c)
    ensures Count(owner, c) > 0
    decreases |owner|
  {
    var n := |owner| - 1;
    if l < n {
      CountSome(owner[..n], l, c);
    }
  }

  lemma {:induction false} CountNone(owner: seq<Option<nat>>, c: nat)
    requires forall l :: 0 <= l < |owner| ==> owner[l] == None
    ensures Count(owner, c) == 0
    decreases |owner|
  {
    if owner != [] {
      CountNone(owner[..|owner| - 1], c);
    }
  }

  /** c is between winning lock l and letting it go. */
  predicate Inside(s: State, c: nat, l: nat) {
    l < |s.cpu| && c < |s.pc| && (s.cpu[l] == Some(c) || s.pc[c] == Won(l) || s.pc[c] == Leaving(l))
  }

  ghost predicate LockOk(s: State, l: nat)
    requires Shape(s) && l < |s.locked|
  {
    && (s.locked[l] <==> s.owner[l].Some?)
    && (s.cpu[l].Some? ==> s.owner[l] == s.cpu[l])
    && (s.owner[l].Some? ==> s.owner[l].value < |s.pc| && Inside(s, s.owner[l].value, l))
  }

  ghost predicate CpuOk(s: State, c: nat)
    requires Shape(s) && c < |s.pc|
  {
    && (s.pc[c].Won? || s.pc[c].Leaving? ==>
           s.pc[c].l < |s.locked| && s.owner[s.pc[c].l] == Some(c) && s.cpu[s.pc[c].l] == None)
    && (s.pc[c].Spinning? ==> s.pc[c].l < |s.locked|)
    && s.noff[c] == Count(s.owner, c) + s.pushes[c] + (if s.pc[c].Spinning? then 1 else 0)
    && (if s.noff[c] > 0 then !s.intr[c] && s.intena[c] == s.outside[c] else s.intr[c] == s.outside[c])
  }

  ghost predicate Inv(s: State) {
    && Shape(s) && (forall l: nat {:trigger LockOk(s, l)} :: l < |s.locked| ==> LockOk(s, l))
    && forall c: nat {:trigger CpuOk(s, c)} :: c < |s.pc| ==> CpuOk(s, c)
  }

  /** The count of a CPU's locks after the step. */
  lemma CountAfter(s: State, e: Event, d: nat)
    requires Inv(s) && Enabled(s, e)
    ensures e.Swap? ==> Count(s.owner[s.pc[e.c].l := Some(e.c)], d) == Count(s.owner, d) + if d == e.c then 1 else 0
    ensures e.Unlock? ==> Count(s.owner[s.pc[e.c].l := None], d) == Count(s.owner, d) - if d == e.c then 1 else 0
  {
    assert CpuOk(s, e.c);
    if e.Swap? {
      assert LockOk(s, s.pc[e.c].l);
      CountUpdate(s.owner, s.pc[e.c].l, Some(e.c), d);
    } else if e.Unlock? {
      CountUpdate(s.owner, s.pc[e.c].l, None, d);
    }
  }

  /** pop_off does not panic: interrupts are off and noff is at least 1. */
  lemma NoPanic(s: State, e: Event)
    requires Inv(s) && Enabled(s, e)
    ensures Step(s, e).Some?
  {
    assert CpuOk(s, e.c);
    if e.Unlock? {
      CountSome(s.owner, s.pc[e.c].l, e.c);
    }
  }

  lemma LockKept(s: State, e: Event, l: nat)
    requires Inv(s) && Enabled(s, e) && Step(s, e).Some? && l < |s.locked|
    ensures var t := Step(s, e).value; Shape(t) && |t.locked| == |s.locked| && LockOk(t, l)
  {
    assert LockOk(s, l) && CpuOk(s, e.c);
    assert s.owner[l].Some? ==> CpuOk(s, s.owner[l].value);
  }

  lemma OtherCpuKept(s: State, e: Event, d: nat)
    requires Inv(s) && Enabled(s, e) && Step(s, e).Some? && d < |s.pc| && d != e.c
    ensures var t := Step(s, e).value; Shape(t) && |t.pc| == |s.pc| && CpuOk(t, d)
  {
    assert CpuOk(s, e.c) && CpuOk(s, d);
    CountAfter(s, e, d);
    assert e.Swap? ==> LockOk(s, s.pc[e.c].l);
    assert e.Clear? ==> LockOk(s, e.l);
  }

  lemma OwnCpuKept(s: State, e: Event)
    requires Inv(s) && Enabled(s, e) && Step(s, e).Some?
    ensures var t := Step(s, e).value; Shape(t) && |t.pc| == |s.pc| && CpuOk(t, e.c)
  {
    assert CpuOk(s, e.c);
    CountAfter(s, e, e.c);
    assert e.Swap? ==> LockOk(s, s.pc[e.c].l);
    assert e.Clear? ==> LockOk(s, e.l);
  }

  lemma CpuKept(s: State, e: Event, d: nat)
    requires Inv(s) && Enabled(s, e) && Step(s, e).Some? && d < |s.pc|
    ensures var t := Step(s, e).value; Shape(t) && |t.pc| == |s.pc| && CpuOk(t, d)
  {
    if d == e.c {
      OwnCpuKept(s, e);
    } else {
      OtherCpuKept(s, e, d);
    }
  }

  lemma StepKeeps(s: State, e: Event)
    requires Inv(s) && Enabled(s, e)
    ensures Step(s, e).Some? && Inv(Step(s, e).value)
  {
    NoPanic(s, e);
    var t := Step(s, e).value;
    assert Shape(t) && |t.locked| == |s.locked| && |t.pc| == |s.pc|;
    forall l: nat | l < |t.locked|
      ensures LockOk(t, l)
    {
      LockKept(s, e, l);
    }
    forall c: nat | c < |t.pc|
      ensures CpuOk(t, c)
    {
      CpuKept(s, e, c);
    }
  }

  lemma {:induction false} RunKeeps(s: State, es: seq<Event>, t: State)
    requires Inv(s) && Run(s, es, t)
    ensures Inv(t)
    decreases |es|
  {
    if es != [] {
      StepKeeps(s, es[0]);
      RunKeeps(Step(s, es[0]).value, es[1..], t);
    }
  }

  lemma StartKeeps(locks: nat, intr: seq<bool>)
    ensures Inv(Start(locks, intr))
  {
    var s := Start(locks, intr);
    forall c: nat | c < |s.pc|
      ensures CpuOk(s, c)
    {
      CountNone(s.owner, c);
    }
    forall l: nat | l < |s.locked|
      ensures LockOk(s, l)
    {
    }
  }

  // ---------- what it is for ----------

  /** In every interleaving a lock has one holder at most, and locked says whether it has one. */
  lemma MutualExclusion(locks: nat, intr: seq<bool>, es: seq<Event>, t: State, c: nat, d: nat, l: nat)
    requires Run(Start(locks, intr), es, t) && l < |t.locked| && Shape(t) && c < |t.pc| && d < |t.pc|
    ensures Inside(t, c, l) && Inside(t, d, l) ==> c == d
    ensures t.locked[l] <==> exists h :: 0 <= h < |t.pc| && Inside(t, h, l)
  {
    StartKeeps(locks, intr);
    RunKeeps(Start(locks, intr), es, t);
    assert LockOk(t, l);
    forall h: nat | h < |t.pc| && Inside(t, h, l)
      ensures t.owner[l] == Some(h)
    {
      assert CpuOk(t, h);
    }
    if t.locked[l] {
      assert Inside(t, t.owner[l].value, l);
    }
  }

  /** holding, which reads two fields without a lock, is right for a CPU that asks about itself. */
  lemma HoldingIsExact(locks: nat, intr: seq<bool>, es: seq<Event>, t: State, c: nat, l: nat)
    requires Run(Start(locks, intr), es, t) && l < |t.locked| && Shape(t) && c < |t.pc| && t.pc[c] == Away
    ensures Holding(t, c, l) <==> Inside(t, c, l)
  {
    StartKeeps(locks, intr);
    RunKeeps(Start(locks, intr), es, t);
    assert LockOk(t, l);
  }

  /** Interrupts are off on a CPU that spins for a lock, holds one or has called push_off, and otherwise as they
      were before; no pop_off panics. */
  lemma InterruptsNest(locks: nat, intr: seq<bool>, es: seq<Event>, t: State, c: nat, e: Event)
    requires Run(Start(locks, intr), es, t) && Shape(t) && c < |t.pc|
    ensures (t.pc[c].Spinning? || t.pushes[c] > 0 || exists l :: 0 <= l < |t.locked| && Inside(t, c, l)) <==>
              t.noff[c] > 0
    ensures t.intr[c] == (t.outside[c] && t.noff[c] == 0)
    ensures Enabled(t, e) ==> Step(t, e).Some?
  {
    StartKeeps(locks, intr);
    RunKeeps(Start(locks, intr), es, t);
    assert CpuOk(t, c);
    forall l: nat | l < |t.locked| && Inside(t, c, l)
      ensures t.noff[c] > 0
    {
      assert LockOk(t, l);
      CountSome(t.owner, l, c);
    }
    if Count(t.owner, c) > 0 {
      var l := Owned(t.owner, c);
      assert LockOk(t, l);
      assert Inside(t, c, l);
    }
    if Enabled(t, e) {
      NoPanic(t, e);
    }
  }

  lemma {:induction false} Owned(owner: seq<Option<nat>>, c: nat) returns (l: nat)
    requires Count(owner, c) > 0
    ensures l < |owner| && owner[l] == Some(c)
    decreases |owner|
  {
    var n := |owner| - 1;
    if owner[n] == Some(c) {
      l := n;
    } else {
      l := Owned(owner[..n], c);
    }
  }
}
