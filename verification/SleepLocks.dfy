/** Sleep-locks over sleep and wakeup: every interleaving of any number of processes. */
module SleepLocks {

  /** Where a process is: in acquiresleep, in sleep under it, in its critical section, or in
      releasesleep with the wakeup scan at process k. */
  datatype Pc =
    | Idle
    | Testing        // holds lk, at the loop test
    | Locking        // holds lk, saw the lock taken, about to acquire p->lock
    | Parting        // holds lk and p->lock, about to release lk
    | Dozing         // holds p->lock, about to set chan and state and switch away
    | Asleep         // switched away; state is SLEEPING or RUNNABLE
    | Waking         // switched to again, holds p->lock
    | Returning      // about to acquire lk again
    | Granted        // holds lk, lock taken, about to release lk
    | Inside         // has the sleep-lock
    | Opening        // holds lk, about to clear locked
    | Scanning(k: nat)   // holds lk, wakeup has dealt with the processes before k
    | Checking(k: nat)   // holds lk and the lock of process k

  datatype Mode = Running | Runnable | Sleeping

  /** holder says who has p->lock: a process, or the scheduler that p has just switched to. */
  datatype Holder = Nobody | Proc(q: nat) | Sched

  datatype State = State(pc: seq<Pc>, mode: seq<Mode>, holder: seq<Holder>, lk: Holder, locked: bool)

  datatype Event =
    | Enter(p: nat) | Test(p: nat) | LockSelf(p: nat) | Part(p: nat) | Doze(p: nat) | SchedRelease(p: nat)
    | Dispatch(p: nat) | WakeUp(p: nat) | Reacquire(p: nat) | Leave(p: nat)
    | Release(p: nat) | Clear(p: nat) | Skip(p: nat) | LockOther(p: nat) | Check(p: nat) | Finish(p: nat)
    | Kill(p: nat)

  predicate Shape(s: State) {
    |s.pc| == |s.mode| == |s.holder|
  }

  /** When a step can be taken. A process acts only while it runs; Kill is another process's kill. */
  predicate Enabled(s: State, e: Event) {
    Shape(s) && e.p < |s.pc| &&
    match e
    case Enter(p) => s.pc[p] == Idle && s.lk == Nobody
    case Test(p) => s.pc[p] == Testing
    case LockSelf(p) => s.pc[p] == Locking && s.holder[p] == Nobody
    case Part(p) => s.pc[p] == Parting
    case Doze(p) => s.pc[p] == Dozing
    case SchedRelease(p) => s.holder[p] == Sched
    case Dispatch(p) => s.pc[p] == Asleep && s.mode[p] == Runnable && s.holder[p] == Nobody
    case WakeUp(p) => s.pc[p] == Waking
    case Reacquire(p) => s.pc[p] == Returning && s.lk == Nobody
    case Leave(p) => s.pc[p] == Granted
    case Release(p) => s.pc[p] == Inside && s.lk == Nobody
    case Clear(p) => s.pc[p] == Opening
    case Skip(p) => s.pc[p] == Scanning(p)
    case LockOther(p) => s.pc[p].Scanning? && s.pc[p].k < |s.pc| && s.pc[p].k != p && s.holder[s.pc[p].k] == Nobody
    case Check(p) => s.pc[p].Checking? && s.pc[p].k < |s.pc|
    case Finish(p) => s.pc[p] == Scanning(|s.pc|)
    case Kill(p) => s.holder[p] == Nobody
  }

  function At(s: State, p: nat, c: Pc): State
    requires p < |s.pc|
  {
    s.(pc := s.pc[p := c])
  }

  function Step(s: State, e: Event): State
    requires Enabled(s, e)
  {
    match e
    case Enter(p) => At(s, p, Testing).(lk := Proc(p))
    case Test(p) => if s.locked then At(s, p, Locking) else At(s, p, Granted).(locked := true)
    case LockSelf(p) => At(s, p, Parting).(holder := s.holder[p := Proc(p)])
    case Part(p) => At(s, p, Dozing).(lk := Nobody)
    case Doze(p) => At(s, p, Asleep).(mode := s.mode[p := Sleeping], holder := s.holder[p := Sched])
    case SchedRelease(p) => s.(holder := s.holder[p := Nobody])
    case Dispatch(p) => At(s, p, Waking).(mode := s.mode[p := Running], holder := s.holder[p := Proc(p)])
    case WakeUp(p) => At(s, p, Returning).(holder := s.holder[p := Nobody])
    case Reacquire(p) => At(s, p, Testing).(lk := Proc(p))
    case Leave(p) => At(s, p, Inside).(lk := Nobody)
    case Release(p) => At(s, p, Opening).(lk := Proc(p))
    case Clear(p) => At(s, p, Scanning(0)).(locked := false)
    case Skip(p) => At(s, p, Scanning(p + 1))
    case LockOther(p) => At(s, p, Checking(s.pc[p].k)).(holder := s.holder[s.pc[p].k := Proc(p)])
    case Check(p) =>
      var k := s.pc[p].k;
      var mode := if s.mode[k] == Sleeping then s.mode[k := Runnable] else s.mode;
      At(s, p, Scanning(k + 1)).(holder := s.holder[k := Nobody], mode := mode)
    case Finish(p) => At(s, p, Idle).(lk := Nobody)
    case Kill(p) => s.(mode := if s.mode[p] == Sleeping then s.mode[p := Runnable] else s.mode)
  }

  /** n processes, none of which uses the lock yet. */
  function Start(n: nat): State {
    State(seq(n, _ => Idle), seq(n, _ => Running), seq(n, _ => Nobody), Nobody, false)
  }

  /** The states that a run can reach. */
  predicate Run(s: State, es: seq<Event>, t: State)
    decreases |es|
  {
    if es == [] then s == t else Enabled(s, es[0]) && Run(Step(s, es[0]), es[1..], t)
  }

  // ---------- the invariant ----------

  predicate HasLk(c: Pc) {
    c.Testing? || c.Locking? || c.Parting? || c.Granted? || c.Opening? || c.Scanning? || c.Checking?
  }

  predicate HasSleepLock(c: Pc) {
    c.Granted? || c.Inside? || c.Opening?
  }

  /** Process q's wakeup scan is still to deal with process p. */
  predicate Ahead(s: State, q: nat, p: nat) {
    q < |s.pc| && (s.pc[q].Scanning? || s.pc[q].Checking?) && s.pc[q].k <= p
  }

  predicate GoingToSleep(s: State, p: nat) {
    && p < |s.pc| && |s.mode| == |s.pc|
    && (s.pc[p].Locking? || s.pc[p].Parting? || s.pc[p].Dozing? || (s.pc[p].Asleep? && s.mode[p] == Sleeping))
  }

  predicate LkOk(s: State, p: nat) {
    && Shape(s) && p < |s.pc|
    && (HasLk(s.pc[p]) <==> s.lk == Proc(p))
    && (HasSleepLock(s.pc[p]) ==> s.locked)
  }

  predicate OwnLockOk(s: State, p: nat) {
    && Shape(s) && p < |s.pc|
    && (s.pc[p].Parting? || s.pc[p].Dozing? || s.pc[p].Waking? <==> s.holder[p] == Proc(p))
    && (s.holder[p] == Sched ==> s.pc[p].Asleep?)
    && (s.pc[p].Asleep? <==> s.mode[p] != Running)
  }

  predicate ScanOk(s: State, p: nat) {
    && Shape(s) && p < |s.pc|
    && (s.pc[p].Scanning? ==> s.pc[p].k <= |s.pc|)
    && (s.pc[p].Checking? ==> s.pc[p].k < |s.pc| && s.pc[p].k != p && s.holder[s.pc[p].k] == Proc(p))
  }

  predicate SelfOk(s: State, p: nat) {
    LkOk(s, p) && OwnLockOk(s, p) && ScanOk(s, p)
  }

  /** Nobody is on the way to sleep, or asleep, for a lock that is free, unless a wakeup is on its way. */
  predicate Awaited(s: State, p: nat) {
    GoingToSleep(s, p) ==> s.locked || (s.lk.Proc? && Ahead(s, s.lk.q, p))
  }

  predicate OneInside(s: State, p: nat, q: nat) {
    p < |s.pc| && q < |s.pc| && HasSleepLock(s.pc[p]) && HasSleepLock(s.pc[q]) ==> p == q
  }

  predicate HolderOk(s: State, p: nat) {
    Shape(s) && p < |s.pc| ==>
      match s.holder[p]
      case Proc(q) => q < |s.pc| && (q == p || s.pc[q] == Checking(p))
      case _ => true
  }

  predicate Inv(s: State) {
    && Shape(s)
    && (s.lk == Nobody || (s.lk.Proc? && s.lk.q < |s.pc|))
    && (s.locked ==> exists p :: 0 <= p < |s.pc| && HasSleepLock(s.pc[p]))
    && (forall p {:trigger SelfOk(s, p)} :: 0 <= p < |s.pc| ==> SelfOk(s, p))
    && (forall p {:trigger Awaited(s, p)} :: 0 <= p < |s.pc| ==> Awaited(s, p))
    && (forall p, q {:trigger OneInside(s, p, q)} :: 0 <= p < |s.pc| && 0 <= q < |s.pc| ==> OneInside(s, p, q))
    && (forall p {:trigger HolderOk(s, p)} :: 0 <= p < |s.pc| ==> HolderOk(s, p))
  }

  lemma StartInv(n: nat)
    ensures Inv(Start(n))
  {
  }

  // ---------- every step keeps it ----------

  lemma LkKept(s: State, e: Event, p: nat)
    requires Inv(s) && Enabled(s, e) && p < |s.pc|
    ensures LkOk(Step(s, e), p)
  {
    assert SelfOk(s, p) && SelfOk(s, e.p) && OneInside(s, p, e.p);
  }

  lemma OwnLockKept(s: State, e: Event, p: nat)
    requires Inv(s) && Enabled(s, e) && p < |s.pc|
    ensures OwnLockOk(Step(s, e), p)
  {
    assert SelfOk(s, p) && SelfOk(s, e.p) && HolderOk(s, p) && HolderOk(s, e.p);
  }

  lemma ScanKept(s: State, e: Event, p: nat)
    requires Inv(s) && Enabled(s, e) && p < |s.pc|
    ensures ScanOk(Step(s, e), p)
  {
    assert SelfOk(s, p) && SelfOk(s, e.p);
    assert s.pc[p].Checking? ==> SelfOk(s, s.pc[p].k);
  }

  lemma HolderKept(s: State, e: Event, p: nat)
    requires Inv(s) && Enabled(s, e) && p < |s.pc|
    ensures HolderOk(Step(s, e), p)
  {
    assert SelfOk(s, p) && SelfOk(s, e.p) && HolderOk(s, p) && HolderOk(s, e.p);
  }

  lemma OneInsideKept(s: State, e: Event, p: nat, q: nat)
    requires Inv(s) && Enabled(s, e) && p < |s.pc| && q < |s.pc|
    ensures OneInside(Step(s, e), p, q)
  {
    assert SelfOk(s, p) && SelfOk(s, q) && SelfOk(s, e.p) && OneInside(s, p, q);
    OneInsideStep(s, e, p, q);
  }

  lemma OneInsideStep(s: State, e: Event, p: nat, q: nat)
    requires Enabled(s, e) && p < |s.pc| && q < |s.pc| && LkOk(s, p) && LkOk(s, q) && OneInside(s, p, q)
    ensures OneInside(Step(s, e), p, q)
  {
  }

  lemma AwaitedKept(s: State, e: Event, p: nat)
    requires Inv(s) && Enabled(s, e) && p < |s.pc|
    ensures Awaited(Step(s, e), p)
  {
    assert SelfOk(s, p) && SelfOk(s, e.p) && Awaited(s, p);
    assert s.lk.Proc? ==> SelfOk(s, s.lk.q);
  }

  lemma LockedKept(s: State, e: Event)
    requires Inv(s) && Enabled(s, e) && Step(s, e).locked
    ensures exists p :: 0 <= p < |s.pc| && HasSleepLock(Step(s, e).pc[p])
  {
    var t := Step(s, e);
    if s.locked {
      var p :| 0 <= p < |s.pc| && HasSleepLock(s.pc[p]);
      assert SelfOk(s, p) && SelfOk(s, e.p) && OneInside(s, p, e.p);
      assert HasSleepLock(t.pc[p]);
    } else {
      assert HasSleepLock(t.pc[e.p]);
    }
  }

  lemma StepKeeps(s: State, e: Event)
    requires Inv(s) && Enabled(s, e)
    ensures Inv(Step(s, e))
  {
    var t := Step(s, e);
    forall p | 0 <= p < |t.pc|
      ensures SelfOk(t, p)
    {
      LkKept(s, e, p);
      OwnLockKept(s, e, p);
      ScanKept(s, e, p);
    }
    forall p | 0 <= p < |t.pc|
      ensures Awaited(t, p)
    {
      AwaitedKept(s, e, p);
    }
    forall p | 0 <= p < |t.pc|
      ensures HolderOk(t, p)
    {
      HolderKept(s, e, p);
    }
    forall p, q | 0 <= p < |t.pc| && 0 <= q < |t.pc|
      ensures OneInside(t, p, q)
    {
      OneInsideKept(s, e, p, q);
    }
    if t.locked {
      LockedKept(s, e);
    }
    assert SelfOk(s, e.p);
  }

  lemma {:induction false} RunKeeps(s: State, es: seq<Event>, t: State)
    requires Inv(s) && Run(s, es, t)
    ensures Inv(t)
    decreases |es|
  {
    if es != [] {
      StepKeeps(s, es[0]);
      RunKeeps(Step(s, es[0]), es[1..], t);
    }
  }

  // ---------- what every run guarantees ----------

  predicate ScanRunning(s: State) {
    exists q :: 0 <= q < |s.pc| && (s.pc[q].Opening? || s.pc[q].Scanning? || s.pc[q].Checking?)
  }

  /** No lost wakeup: a process sleeps on the lock only while it is taken or a wakeup scan is running. */
  lemma NoLostWakeup(n: nat, es: seq<Event>, t: State, p: nat)
    requires Run(Start(n), es, t) && p < |t.pc| && |t.mode| == |t.pc|
    ensures t.pc[p].Asleep? && t.mode[p] == Sleeping && !t.locked ==> ScanRunning(t)
  {
    StartInv(n);
    RunKeeps(Start(n), es, t);
    assert Awaited(t, p);
  }

  /** At most one process has the sleep-lock, and locked says whether one does. */
  lemma MutualExclusion(n: nat, es: seq<Event>, t: State, p: nat, q: nat)
    requires Run(Start(n), es, t) && p < |t.pc| && q < |t.pc|
    ensures HasSleepLock(t.pc[p]) && HasSleepLock(t.pc[q]) ==> p == q
    ensures t.locked <==> exists r :: 0 <= r < |t.pc| && HasSleepLock(t.pc[r])
  {
    StartInv(n);
    RunKeeps(Start(n), es, t);
    assert OneInside(t, p, q);
    forall r | 0 <= r < |t.pc| && HasSleepLock(t.pc[r])
      ensures t.locked
    {
      assert SelfOk(t, r);
    }
  }

  /** A wakeup scan, or a kill, deals with p. */
  predicate Wakes(s: State, e: Event, p: nat) {
    e.p < |s.pc| && ((e.Check? && s.pc[e.p] == Checking(p)) || (e.Kill? && e.p == p))
  }

  predicate Woken(s: State, es: seq<Event>, p: nat)
    decreases |es|
  {
    es != [] && Enabled(s, es[0]) && (Wakes(s, es[0], p) || Woken(Step(s, es[0]), es[1..], p))
  }

  /** A process that goes to sleep in acquiresleep does not run again until somebody wakes it up. */
  lemma SleepsUntilWoken(n: nat, es: seq<Event>, s: State, p: nat, fs: seq<Event>, t: State)
    requires Run(Start(n), es, s) && Enabled(s, Doze(p)) && Run(Step(s, Doze(p)), fs, t)
    ensures Woken(Step(s, Doze(p)), fs, p) ||
            (p < |t.pc| && |t.mode| == |t.pc| && t.pc[p] == Asleep && t.mode[p] == Sleeping)
  {
    StartInv(n);
    RunKeeps(Start(n), es, s);
    StepKeeps(s, Doze(p));
    var u := Step(s, Doze(p));
    FallsAsleep(s, p, u);
    if !Woken(u, fs, p) {
      StaysAsleep(u, fs, t, p);
    }
  }

  lemma FallsAsleep(s: State, p: nat, u: State)
    requires Enabled(s, Doze(p)) && u == Step(s, Doze(p))
    ensures p < |u.pc| && |u.mode| == |u.pc| && u.pc[p] == Asleep && u.mode[p] == Sleeping
  {
  }

  lemma {:induction false} StaysAsleep(s: State, es: seq<Event>, t: State, p: nat)
    requires Inv(s) && p < |s.pc| && s.pc[p] == Asleep && s.mode[p] == Sleeping && Run(s, es, t) && !Woken(s, es, p)
    ensures p < |t.pc| && |t.mode| == |t.pc| && t.pc[p] == Asleep && t.mode[p] == Sleeping
    decreases |es|
  {
    if es != [] {
      assert SelfOk(s, p) && SelfOk(s, es[0].p);
      StepKeeps(s, es[0]);
      StaysAsleep(Step(s, es[0]), es[1..], t, p);
    }
  }

  /** Sleep-locks do not put everybody to sleep: somebody has the lock, or a scan is running. */
  lemma SomebodyAwake(n: nat, es: seq<Event>, t: State) returns (p: nat)
    requires n > 0 && Run(Start(n), es, t)
    ensures p < |t.pc| && |t.mode| == |t.pc| && !(t.pc[p] == Asleep && t.mode[p] == Sleeping)
  {
    StartInv(n);
    RunKeeps(Start(n), es, t);
    SizeStays(Start(n), es, t);
    p := 0;
    if t.pc[p] == Asleep && t.mode[p] == Sleeping {
      assert Awaited(t, p);
      if t.locked {
        p :| p < |t.pc| && HasSleepLock(t.pc[p]);
      } else {
        p := t.lk.q;
      }
    }
  }

  lemma {:induction false} SizeStays(s: State, es: seq<Event>, t: State)
    requires Run(s, es, t) && Shape(s)
    ensures |t.pc| == |s.pc|
    decreases |es|
  {
    if es != [] {
      SizeStays(Step(s, es[0]), es[1..], t);
    }
  }
}
