/** sleep and wakeup on one channel under one lock, for any conditions: every interleaving of any number of
    processes. */
module SleepWakeup {

  /** Where a process is: in its critical section, in sleep, or in a wakeup scan that has come to process k. */
  datatype Pc =
    | Idle
    | Inside(owes: bool)  // holds lk; owes: has made a condition true and not called wakeup since
    | Testing             // holds lk, at the test of the waiting loop
    | Locking             // holds lk, in sleep, about to acquire p->lock
    | Parting             // holds lk and p->lock, about to release lk
    | Dozing              // holds p->lock, about to set chan and state and switch away
    | Asleep              // switched away; state is SLEEPING or RUNNABLE
    | Waking              // switched to again, holds p->lock
    | Returning           // about to acquire lk again
    | Scanning(k: nat)    // holds lk, wakeup has dealt with the processes before k
    | Checking(k: nat)    // holds lk and the lock of process k

  datatype Mode = Running | Runnable | Sleeping

  /** holder says who has p->lock: a process, or the scheduler that p has just switched to. */
  datatype Holder = Nobody | Proc(q: nat) | Sched

  /** cond[p]: what process p waits for is true of the data that lk protects. */
  datatype State = State(pc: seq<Pc>, mode: seq<Mode>, holder: seq<Holder>, lk: Holder, cond: seq<bool>)

  datatype Event =
    | Enter(p: nat) | Act(p: nat, cond: seq<bool>) | Leave(p: nat)
    | Wait(p: nat) | Test(p: nat) | LockSelf(p: nat) | Part(p: nat) | Doze(p: nat) | SchedRelease(p: nat)
    | Dispatch(p: nat) | WakeUp(p: nat) | Reacquire(p: nat)
    | Call(p: nat) | Skip(p: nat) | LockOther(p: nat) | Check(p: nat) | Finish(p: nat)
    | Kill(p: nat)

  predicate Shape(s: State) {
    |s.pc| == |s.mode| == |s.holder| == |s.cond|
  }

  /** When a step can be taken. Act changes the data under lk, and with it any of the conditions. The two rules that
      callers keep: a process that owes a wakeup neither leaves nor waits before it has called it. */
  predicate Enabled(s: State, e: Event) {
    Shape(s) && e.p < |s.pc| &&
    match e
    case Enter(p) => s.pc[p] == Idle && s.lk == Nobody
    case Act(p, cond) => s.pc[p].Inside? && |cond| == |s.cond|
    case Leave(p) => s.pc[p] == Inside(false)
    case Wait(p) => s.pc[p] == Inside(false)
    case Test(p) => s.pc[p] == Testing
    case LockSelf(p) => s.pc[p] == Locking && s.holder[p] == Nobody
    case Part(p) => s.pc[p] == Parting
    case Doze(p) => s.pc[p] == Dozing
    case SchedRelease(p) => s.holder[p] == Sched
    case Dispatch(p) => s.pc[p] == Asleep && s.mode[p] == Runnable && s.holder[p] == Nobody
    case WakeUp(p) => s.pc[p] == Waking
    case Reacquire(p) => s.pc[p] == Returning && s.lk == Nobody
    case Call(p) => s.pc[p].Inside?
    case Skip(p) => s.pc[p] == Scanning(p)
    case LockOther(p) => s.pc[p].Scanning? && s.pc[p].k < |s.pc| && s.pc[p].k != p && s.holder[s.pc[p].k] == Nobody
    case Check(p) => s.pc[p].Checking? && s.pc[p].k < |s.pc|
    case Finish(p) => s.pc[p] == Scanning(|s.pc|)
    case Kill(p) => s.holder[p] == Nobody
  }

  function At(s: State, p: nat, c: Pc): State
    requires p < |s.pc|
  {
    s.(pc := s.pc[p := c])
  }

  /** Some condition that was false is true. */
  predicate MakesTrue(cond: seq<bool>, cond': seq<bool>) {
    |cond'| == |cond| && exists q :: 0 <= q < |cond| && !cond[q] && cond'[q]
  }

  function Step(s: State, e: Event): State
    requires Enabled(s, e)
  {
    match e
    case Enter(p) => At(s, p, Inside(false)).(lk := Proc(p))
    case Act(p, cond) => At(s, p, Inside(s.pc[p].owes || MakesTrue(s.cond, cond))).(cond := cond)
    case Leave(p) => At(s, p, Idle).(lk := Nobody)
    case Wait(p) => At(s, p, Testing)
    case Test(p) => At(s, p, if s.cond[p] then Inside(false) else Locking)
    case LockSelf(p) => At(s, p, Parting).(holder := s.holder[p := Proc(p)])
    case Part(p) => At(s, p, Dozing).(lk := Nobody)
    case Doze(p) => At(s, p, Asleep).(mode := s.mode[p := Sleeping], holder := s.holder[p := Sched])
    case SchedRelease(p) => s.(holder := s.holder[p := Nobody])
    case Dispatch(p) => At(s, p, Waking).(mode := s.mode[p := Running], holder := s.holder[p := Proc(p)])
    case WakeUp(p) => At(s, p, Returning).(holder := s.holder[p := Nobody])
    case Reacquire(p) => At(s, p, Testing).(lk := Proc(p))
    case Call(p) => At(s, p, Scanning(0))
    case Skip(p) => At(s, p, Scanning(p + 1))
    case LockOther(p) => At(s, p, Checking(s.pc[p].k)).(holder := s.holder[s.pc[p].k := Proc(p)])
    case Check(p) =>
      var k := s.pc[p].k;
      var mode := if s.mode[k] == Sleeping then s.mode[k := Runnable] else s.mode;
      At(s, p, Scanning(k + 1)).(holder := s.holder[k := Nobody], mode := mode)
    case Finish(p) => At(s, p, Inside(false))
    case Kill(p) => s.(mode := if s.mode[p] == Sleeping then s.mode[p := Runnable] else s.mode)
  }

  /** n processes, none of which has entered, and any conditions. */
  function Start(cond: seq<bool>): State {
    var n := |cond|;
    State(seq(n, _ => Idle), seq(n, _ => Running), seq(n, _ => Nobody), Nobody, cond)
  }

  predicate Run(s: State, es: seq<Event>, t: State)
    decreases |es|
  {
    if es == [] then s == t else Enabled(s, es[0]) && Run(Step(s, es[0]), es[1..], t)
  }

  // ---------- the invariant ----------

  predicate HasLk(c: Pc) {
    c.Inside? || c.Testing? || c.Locking? || c.Parting? || c.Scanning? || c.Checking?
  }

  /** Process q has yet to call wakeup, or its scan is still to deal with process p. */
  predicate Ahead(s: State, q: nat, p: nat) {
    q < |s.pc| && (s.pc[q] == Inside(true) || ((s.pc[q].Scanning? || s.pc[q].Checking?) && s.pc[q].k <= p))
  }

  predicate GoingToSleep(s: State, p: nat) {
    && p < |s.pc| && |s.mode| == |s.pc|
    && (s.pc[p].Locking? || s.pc[p].Parting? || s.pc[p].Dozing? || (s.pc[p].Asleep? && s.mode[p] == Sleeping))
  }

  predicate SelfOk(s: State, p: nat) {
    && Shape(s) && p < |s.pc|
    && (HasLk(s.pc[p]) <==> s.lk == Proc(p))
    && (s.pc[p].Parting? || s.pc[p].Dozing? || s.pc[p].Waking? <==> s.holder[p] == Proc(p))
    && (s.holder[p] == Sched ==> s.pc[p].Asleep?)
    && (s.pc[p].Asleep? <==> s.mode[p] != Running)
  }

  predicate ScanOk(s: State, p: nat) {
    && Shape(s) && p < |s.pc|
    && (s.pc[p].Scanning? ==> s.pc[p].k <= |s.pc|)
    && (s.pc[p].Checking? ==> s.pc[p].k < |s.pc| && s.pc[p].k != p && s.holder[s.pc[p].k] == Proc(p))
  }

  predicate HolderOk(s: State, p: nat) {
    Shape(s) && p < |s.pc| ==>
      match s.holder[p]
      case Proc(q) => q < |s.pc| && (q == p || s.pc[q] == Checking(p))
      case _ => true
  }

  /** Nobody is on the way to sleep, or asleep, with its condition true, unless a wakeup is on its way. */
  predicate Awaited(s: State, p: nat) {
    Shape(s) && (GoingToSleep(s, p) && s.cond[p] ==> s.lk.Proc? && Ahead(s, s.lk.q, p))
  }

  predicate ProcOk(s: State, p: nat) {
    SelfOk(s, p) && ScanOk(s, p) && HolderOk(s, p) && Awaited(s, p)
  }

  predicate Inv(s: State) {
    && Shape(s) && (s.lk == Nobody || (s.lk.Proc? && s.lk.q < |s.pc|))
    && (forall p {:trigger ProcOk(s, p)} :: 0 <= p < |s.pc| ==> ProcOk(s, p))
  }

  // ---------- every step keeps it ----------

  /** What the invariant says about p, about the process that takes a step, and about who else is concerned. */
  predicate Facts(s: State, e: Event, p: nat) {
    && Enabled(s, e) && p < |s.pc| && ProcOk(s, p) && ProcOk(s, e.p)
    && (s.lk == Nobody || (s.lk.Proc? && s.lk.q < |s.pc|))
    && (s.lk.Proc? && s.lk.q < |s.pc| ==> ProcOk(s, s.lk.q))
  }

  lemma SelfKept(s: State, e: Event, p: nat)
    requires Facts(s, e, p)
    ensures SelfOk(Step(s, e), p)
  {
  }

  lemma ScanKept(s: State, e: Event, p: nat)
    requires Facts(s, e, p) && (s.pc[p].Checking? ==> ProcOk(s, s.pc[p].k))
    ensures ScanOk(Step(s, e), p)
  {
  }

  lemma HolderKept(s: State, e: Event, p: nat)
    requires Facts(s, e, p)
    ensures HolderOk(Step(s, e), p)
  {
  }

  lemma AwaitedKept(s: State, e: Event, p: nat)
    requires Facts(s, e, p)
    ensures Awaited(Step(s, e), p)
  {
    if e.Act? {
      assert !s.cond[p] && e.cond[p] ==> MakesTrue(s.cond, e.cond);
    } else if GoingToSleep(Step(s, e), p) && Step(s, e).cond[p] {
      WasGoing(s, e, p);
      StillAhead(s, e, p);
    }
  }

  /** Nobody sets out to sleep with its condition true. */
  lemma WasGoing(s: State, e: Event, p: nat)
    requires Facts(s, e, p) && !e.Act? && GoingToSleep(Step(s, e), p) && Step(s, e).cond[p]
    ensures GoingToSleep(s, p) && s.cond[p]
  {
  }

  /** The scan does not pass a sleeper without waking it up. */
  lemma StillAhead(s: State, e: Event, p: nat)
    requires Facts(s, e, p) && !e.Act? && GoingToSleep(Step(s, e), p) && GoingToSleep(s, p)
    requires s.lk.Proc? && Ahead(s, s.lk.q, p)
    ensures Step(s, e).lk == s.lk && Ahead(Step(s, e), s.lk.q, p)
  {
  }

  lemma StepKeeps(s: State, e: Event)
    requires Inv(s) && Enabled(s, e)
    ensures Inv(Step(s, e))
  {
    var t := Step(s, e);
    assert ProcOk(s, e.p);
    forall p | 0 <= p < |t.pc|
      ensures ProcOk(t, p)
    {
      assert ProcOk(s, p) && (s.lk.Proc? ==> ProcOk(s, s.lk.q)) && (s.pc[p].Checking? ==> ProcOk(s, s.pc[p].k));
      SelfKept(s, e, p);
      ScanKept(s, e, p);
      HolderKept(s, e, p);
      AwaitedKept(s, e, p);
    }
  }

  lemma {:induction false} RunKeeps(s: State, es: seq<Event>, t: State)
    requires Inv(s) && Run(s, es, t)
    ensures Inv(t)
    decreases |es|
  {
    if es != [] {
      StepKeeps(s, es[0]);
      RunKeeps(Step(s, es[0]), es[1..], t);
    }
  }

  // ---------- what every run guarantees ----------

  /** No lost wakeup: when a process sleeps although its condition is true, the process that holds lk owes a wakeup
      or is in a scan that has not come to the sleeper; so nobody does while lk is free. */
  lemma NoLostWakeup(cond: seq<bool>, es: seq<Event>, t: State, p: nat)
    requires Run(Start(cond), es, t) && p < |t.pc| && Shape(t)
    ensures t.pc[p].Asleep? && t.mode[p] == Sleeping && t.cond[p] ==> t.lk.Proc? && Ahead(t, t.lk.q, p)
    ensures t.pc[p].Asleep? && t.mode[p] == Sleeping && t.lk == Nobody ==> !t.cond[p]
  {
    assert Inv(Start(cond));
    RunKeeps(Start(cond), es, t);
    assert ProcOk(t, p);
  }

  /** In the waiting loop, or in the sleep that it calls. */
  predicate InWait(c: Pc) {
    c.Testing? || c.Locking? || c.Parting? || c.Dozing? || c.Asleep? || c.Waking? || c.Returning?
  }

  /** A process comes out of the waiting loop only with its condition true, and with lk held. */
  lemma WaitEndsTrue(cond: seq<bool>, es: seq<Event>, s: State, e: Event, p: nat)
    requires Run(Start(cond), es, s) && Enabled(s, e) && p < |s.pc|
    requires InWait(s.pc[p]) && !InWait(Step(s, e).pc[p])
    ensures s.cond[p] && Step(s, e).cond[p] && Step(s, e).lk == Proc(p)
  {
    assert Inv(Start(cond));
    RunKeeps(Start(cond), es, s);
    assert ProcOk(s, p);
  }

  /** A wakeup scan, or a kill, deals with p. */
  predicate Wakes(s: State, e: Event, p: nat) {
    e.p < |s.pc| && ((e.Check? && s.pc[e.p] == Checking(p)) || (e.Kill? && e.p == p))
  }

  predicate Woken(s: State, es: seq<Event>, p: nat)
    decreases |es|
  {
    es != [] && Enabled(s, es[0]) && (Wakes(s, es[0], p) || Woken(Step(s, es[0]), es[1..], p))
  }

  /** A process that goes to sleep does not run again until somebody wakes it up. */
  lemma SleepsUntilWoken(cond: seq<bool>, es: seq<Event>, s: State, p: nat, fs: seq<Event>, t: State)
    requires Run(Start(cond), es, s) && Enabled(s, Doze(p)) && Run(Step(s, Doze(p)), fs, t)
    ensures Woken(Step(s, Doze(p)), fs, p) ||
            (p < |t.pc| && |t.mode| == |t.pc| && t.pc[p] == Asleep && t.mode[p] == Sleeping)
  {
    assert Inv(Start(cond));
    RunKeeps(Start(cond), es, s);
    StepKeeps(s, Doze(p));
    var u := Step(s, Doze(p));
    FallsAsleep(s, p, u);
    if !Woken(u, fs, p) {
      StaysAsleep(u, fs, t, p);
    }
  }

  lemma FallsAsleep(s: State, p: nat, u: State)
    requires Enabled(s, Doze(p)) && u == Step(s, Doze(p))
    ensures p < |u.pc| && |u.mode| == |u.pc| && u.pc[p] == Asleep && u.mode[p] == Sleeping
  {
  }

  lemma {:induction false} StaysAsleep(s: State, es: seq<Event>, t: State, p: nat)
    requires Inv(s) && p < |s.pc| && s.pc[p] == Asleep && s.mode[p] == Sleeping && Run(s, es, t) && !Woken(s, es, p)
    ensures p < |t.pc| && |t.mode| == |t.pc| && t.pc[p] == Asleep && t.mode[p] == Sleeping
    decreases |es|
  {
    if es != [] {
      assert ProcOk(s, p) && ProcOk(s, es[0].p);
      StepKeeps(s, es[0]);
      StaysAsleep(Step(s, es[0]), es[1..], t, p);
    }
  }

  /** What wakes a sleeper up makes it runnable. */
  lemma WakingWorks(s: State, e: Event, p: nat)
    requires Enabled(s, e) && Wakes(s, e, p) && p < |s.pc| && s.mode[p] == Sleeping
    ensures Step(s, e).mode[p] == Runnable
  {
  }
}
