/** Who is whose parent, and what kwait knows of its children: more that every interleaving of fork, exit and wait
    keeps. */
module Families {
  import opened Basics
  import opened ExitWait

  // ---------- the invariant ----------

  predicate Makes(s: State, p: nat, c: nat) {
    p < |s.pc| && Making(s.pc[p]) == Some(c)
  }

  /** A slot that is neither free nor in full use is being filled by a fork. */
  ghost predicate UsedOk(s: State, c: nat) {
    c < |s.mode| && (s.mode[c] == Used ==> exists p: nat :: Makes(s, p, c))
  }

  predicate Exists(m: Mode) {
    m != Unused && m != Used
  }

  /** A new process has its parent before it can run. */
  predicate NamedOk(s: State, p: nat) {
    && Whole(s) && p < Size(s)
    && (Making(s.pc[p]).Some? && Making(s.pc[p]).value < Size(s) ==>
          s.parent[Making(s.pc[p]).value] == if s.pc[p].Named? || s.pc[p].Launching? then Some(p) else None)
  }

  predicate HasParent(s: State, k: nat) {
    Whole(s) && k < Size(s) && (Exists(s.mode[k]) && k != 0 ==> s.parent[k].Some?)
  }

  /** reparent of a process at c has dealt with slot k. */
  predicate Dealt(c: Pc, k: nat) {
    (c.Exiting? && k < c.k) || (c.Rousing? && k <= c.k) || c.Roused? || c.Ending?
  }

  predicate MadeBy(s: State, p: nat, k: nat) {
    Whole(s) && p < Size(s) && k < Size(s) && s.pid[k] in s.forker && s.forker[s.pid[k]] == s.pid[p]
  }

  /** A process keeps its children until it exits. */
  predicate Keeps(s: State, p: nat, k: nat) {
    && Whole(s) && p < Size(s) && k < Size(s)
    && (Exists(s.mode[k]) && Settled(s.mode[p]) && MadeBy(s, p, k) ==>
          s.parent[k] == Some(p) || Dealt(s.pc[p], k))
  }

  /** A process that has not run has made none. */
  predicate Childless(s: State, p: nat, k: nat) {
    Whole(s) && p < Size(s) && k < Size(s) && (s.mode[p] == Used && Exists(s.mode[k]) ==> !MadeBy(s, p, k))
  }

  predicate MakersBelow(s: State) {
    forall i {:trigger s.forker[i]} :: i in s.forker ==> s.forker[i] < s.nextpid
  }

  predicate Scanning(c: Pc) {
    c.Waiting? || c.Looking?
  }

  /** kwait has seen its child k. */
  predicate SeenKid(s: State, p: nat, k: nat) {
    && Whole(s) && p < Size(s) && k < Size(s)
    && (Scanning(s.pc[p]) && k < s.pc[p].k && s.parent[k] == Some(p) ==> s.pc[p].kids)
  }

  predicate IsKid(s: State, p: nat, k: nat) {
    k < |s.parent| && s.parent[k] == Some(p)
  }

  /** kwait has seen a child only if it has one. */
  ghost predicate KidsOk(s: State, p: nat) {
    && Whole(s) && p < Size(s)
    && (Scanning(s.pc[p]) && s.pc[p].kids ==> exists k: nat :: IsKid(s, p, k))
  }

  ghost predicate SlotAt(s: State, p: nat) {
    UsedOk(s, p) && NamedOk(s, p) && HasParent(s, p) && KidsOk(s, p)
  }

  predicate KinAt(s: State, p: nat, k: nat) {
    Keeps(s, p, k) && Childless(s, p, k) && SeenKid(s, p, k)
  }

  ghost predicate Kin(s: State) {
    && Inv(s) && MakersBelow(s)
    && (forall p {:trigger SlotAt(s, p)} :: 0 <= p < Size(s) ==> SlotAt(s, p))
    && (forall p, k {:trigger KinAt(s, p, k)} :: 0 <= p < Size(s) && 0 <= k < Size(s) ==> KinAt(s, p, k))
  }

  lemma StartKin(n: nat)
    requires n > 0
    ensures Kin(Start(n))
  {
    StartInv(n);
  }

  // ---------- every step keeps it ----------

  /** The slot that e.p is making or looking at. */
  function At(s: State, e: Event): nat
    requires Whole(s) && e.p < Size(s)
  {
    if e.Alloc? then e.c
    else if s.pc[e.p].Looking? then s.pc[e.p].k
    else if Making(s.pc[e.p]).Some? then Making(s.pc[e.p]).value
    else e.p
  }

  ghost predicate Facts(s: State, e: Event, p: nat) {
    && Whole(s) && e.p < Size(s) && p < Size(s) && InitOk(s) && PidsBelow(s) && MakersBelow(s)
    && LocksAt(s, p) && LocksAt(s, e.p) && FamilyAt(s, p) && FamilyAt(s, e.p) && SlotAt(s, p) && SlotAt(s, e.p)
    && PairAt(s, p, e.p) && At(s, e) < Size(s) && LocksAt(s, At(s, e)) && ParentOk(s, At(s, e))
  }

  lemma UsedSched(s: State, e: Event, c: nat)
    requires Facts(s, e, c) && SchedEnabled(s, e)
    ensures UsedOk(SchedStep(s, e), c)
  {
    if SchedStep(s, e).mode[c] == Used {
      if s.mode[c] == Used {
        var p: nat :| Makes(s, p, c);
        assert Makes(SchedStep(s, e), p, c);
      }
    }
  }

  lemma NamedSched(s: State, e: Event, p: nat)
    requires Facts(s, e, p) && SchedEnabled(s, e)
    ensures NamedOk(SchedStep(s, e), p)
  {
  }

  lemma ParentSched(s: State, e: Event, p: nat)
    requires Facts(s, e, p) && SchedEnabled(s, e)
    ensures HasParent(SchedStep(s, e), p)
  {
  }

  lemma KidsSched(s: State, e: Event, p: nat)
    requires Facts(s, e, p) && SchedEnabled(s, e)
    ensures KidsOk(SchedStep(s, e), p)
  {
    if Scanning(s.pc[p]) && s.pc[p].kids {
      var k: nat :| IsKid(s, p, k);
      assert IsKid(SchedStep(s, e), p, k);
    }
  }

  lemma UsedFork(s: State, e: Event, c: nat)
    requires Facts(s, e, c) && ForkEnabled(s, e)
    ensures UsedOk(ForkStep(s, e), c)
  {
    if ForkStep(s, e).mode[c] == Used {
      if s.mode[c] == Used {
        var p: nat :| Makes(s, p, c);
        assert Makes(ForkStep(s, e), p, c);
      } else {
        assert Makes(ForkStep(s, e), e.p, c);
      }
    }
  }

  lemma NamedFork(s: State, e: Event, p: nat)
    requires Whole(s) && p < Size(s) && e.p < Size(s) && ForkEnabled(s, e) && NamedOk(s, p) && OneMaker(s, p, e.p)
    requires MakingOk(s, p) && MakingOk(s, e.p) && At(s, e) < Size(s) && ParentOk(s, At(s, e))
    ensures NamedOk(ForkStep(s, e), p)
  {
  }

  lemma ParentFork(s: State, e: Event, p: nat)
    requires Facts(s, e, p) && ForkEnabled(s, e)
    ensures HasParent(ForkStep(s, e), p)
  {
  }

  /** fork gives a parent to new slots alone. */
  lemma KidStays(s: State, e: Event, p: nat, k: nat)
    requires Whole(s) && p < Size(s) && e.p < Size(s) && ForkEnabled(s, e) && NamedOk(s, e.p) && IsKid(s, p, k)
    requires Making(s.pc[e.p]).Some? ==> Making(s.pc[e.p]).value < Size(s)
    requires Scanning(s.pc[p])
    ensures IsKid(ForkStep(s, e), p, k)
  {
  }

  /** kwait's view of p does not change when neither its place nor its children do. */
  lemma KidsStay(s: State, t: State, p: nat)
    requires KidsOk(s, p) && Whole(t) && p < Size(t) && t.pc[p] == s.pc[p]
    requires forall k: nat {:trigger IsKid(t, p, k)} {:trigger IsKid(s, p, k)} :: IsKid(s, p, k) ==> IsKid(t, p, k)
    ensures KidsOk(t, p)
  {
  }

  lemma KidsFork(s: State, e: Event, p: nat)
    requires Whole(s) && p < Size(s) && e.p < Size(s) && ForkEnabled(s, e) && NamedOk(s, e.p) && KidsOk(s, p)
    requires Making(s.pc[e.p]).Some? ==> Making(s.pc[e.p]).value < Size(s)
    ensures KidsOk(ForkStep(s, e), p)
  {
    if Scanning(ForkStep(s, e).pc[p]) {
      SameScan(s, e, p);
      forall k: nat | IsKid(s, p, k)
        ensures IsKid(ForkStep(s, e), p, k)
      {
        KidStays(s, e, p, k);
      }
      KidsStay(s, ForkStep(s, e), p);
    }
  }

  lemma SameScan(s: State, e: Event, p: nat)
    requires Whole(s) && p < Size(s) && e.p < Size(s) && ForkEnabled(s, e) && Scanning(ForkStep(s, e).pc[p])
    ensures Whole(ForkStep(s, e)) && Size(ForkStep(s, e)) == Size(s) && ForkStep(s, e).pc[p] == s.pc[p]
  {
  }

  /** What kexit, up to its own lock, does to slot p: e.p moves on, init or a parent may be woken up, and a child of e.p
      may be given to init. */
  predicate ExitMoves(s: State, t: State, e: Event, p: nat) {
    && Whole(s) && Whole(t) && Size(t) == Size(s) && p < Size(s) && e.p < Size(s)
    && t.pid == s.pid && t.forker == s.forker && t.pc == s.pc[e.p := t.pc[e.p]]
    && (t.mode[p] == s.mode[p] || (s.mode[p] == Sleeping && t.mode[p] == Runnable))
    && (t.parent[p] == s.parent[p] || (s.parent[p] == Some(e.p) && t.parent[p] == Some(0) && Dealt(t.pc[e.p], p)))
    && (Dealt(s.pc[e.p], p) ==> Dealt(t.pc[e.p], p))
    && Making(s.pc[e.p]) == None && Making(t.pc[e.p]) == None && !Scanning(t.pc[e.p])
  }

  lemma ExitMovesOn(s: State, e: Event, p: nat)
    requires Whole(s) && p < Size(s) && e.p < Size(s) && ExitEnabled(s, e)
    ensures ExitMoves(s, ExitStep(s, e), e, p)
  {
    ExitFrame(s, e);
    ExitModes(s, e, p);
    ExitDeals(s, e, p);
  }

  lemma ExitDeals(s: State, e: Event, p: nat)
    requires Whole(s) && p < Size(s) && e.p < Size(s) && ExitEnabled(s, e)
    ensures var t := ExitStep(s, e);
            && Size(t) == Size(s) && Whole(t)
            && (t.parent[p] == s.parent[p] ||
                (s.parent[p] == Some(e.p) && t.parent[p] == Some(0) && Dealt(t.pc[e.p], p)))
            && (Dealt(s.pc[e.p], p) ==> Dealt(t.pc[e.p], p)) && Making(s.pc[e.p]) == None && !Scanning(t.pc[e.p])
  {
  }

  lemma UsedExit(s: State, t: State, e: Event, c: nat)
    requires ExitMoves(s, t, e, c) && UsedOk(s, c)
    ensures UsedOk(t, c)
  {
    if t.mode[c] == Used {
      var p: nat :| Makes(s, p, c);
      assert Makes(t, p, c);
    }
  }

  lemma NamedExit(s: State, t: State, e: Event, p: nat)
    requires ExitMoves(s, t, e, p) && NamedOk(s, p)
    requires Making(s.pc[p]).Some? && Making(s.pc[p]).value < Size(s) ==> ExitMoves(s, t, e, Making(s.pc[p]).value)
    ensures NamedOk(t, p)
  {
  }

  lemma ParentExit(s: State, t: State, e: Event, p: nat)
    requires ExitMoves(s, t, e, p) && HasParent(s, p)
    ensures HasParent(t, p)
  {
  }

  lemma KidsExit(s: State, t: State, e: Event, p: nat)
    requires ExitMoves(s, t, e, p) && KidsOk(s, p) && forall k :: 0 <= k < Size(s) ==> ExitMoves(s, t, e, k)
    ensures KidsOk(t, p)
  {
    if p != e.p && Scanning(s.pc[p]) && s.pc[p].kids {
      var k: nat :| IsKid(s, p, k);
      assert ExitMoves(s, t, e, k);
      assert IsKid(t, p, k);
    }
  }

  lemma SlotExit(s: State, e: Event, p: nat)
    requires Whole(s) && p < Size(s) && e.p < Size(s) && ExitEnabled(s, e) && SlotAt(s, p)
    ensures SlotAt(ExitStep(s, e), p)
  {
    forall k | 0 <= k < Size(s)
      ensures ExitMoves(s, ExitStep(s, e), e, k)
    {
      ExitMovesOn(s, e, k);
    }
    UsedExit(s, ExitStep(s, e), e, p);
    NamedExit(s, ExitStep(s, e), e, p);
    ParentExit(s, ExitStep(s, e), e, p);
    KidsExit(s, ExitStep(s, e), e, p);
  }

  lemma UsedDie(s: State, e: Event, c: nat)
    requires Facts(s, e, c) && DieEnabled(s, e)
    ensures UsedOk(DieStep(s, e), c)
  {
    if DieStep(s, e).mode[c] == Used {
      if s.mode[c] == Used {
        var p: nat :| Makes(s, p, c);
        assert Makes(DieStep(s, e), p, c);
      }
    }
  }

  lemma NamedDie(s: State, e: Event, p: nat)
    requires Facts(s, e, p) && DieEnabled(s, e)
    ensures NamedOk(DieStep(s, e), p)
  {
  }

  lemma ParentDie(s: State, e: Event, p: nat)
    requires Facts(s, e, p) && DieEnabled(s, e)
    ensures HasParent(DieStep(s, e), p)
  {
  }

  lemma KidsDie(s: State, e: Event, p: nat)
    requires Facts(s, e, p) && DieEnabled(s, e)
    ensures KidsOk(DieStep(s, e), p)
  {
  }

  lemma UsedSleep(s: State, e: Event, c: nat)
    requires Facts(s, e, c) && SleepEnabled(s, e)
    ensures UsedOk(SleepStep(s, e), c)
  {
    if SleepStep(s, e).mode[c] == Used {
      if s.mode[c] == Used {
        var p: nat :| Makes(s, p, c);
        assert Makes(SleepStep(s, e), p, c);
      }
    }
  }

  lemma NamedSleep(s: State, e: Event, p: nat)
    requires Facts(s, e, p) && SleepEnabled(s, e)
    ensures NamedOk(SleepStep(s, e), p)
  {
  }

  lemma ParentSleep(s: State, e: Event, p: nat)
    requires Facts(s, e, p) && SleepEnabled(s, e)
    ensures HasParent(SleepStep(s, e), p)
  {
  }

  lemma KidsSleep(s: State, e: Event, p: nat)
    requires Facts(s, e, p) && SleepEnabled(s, e)
    ensures KidsOk(SleepStep(s, e), p)
  {
    if Scanning(s.pc[p]) && s.pc[p].kids {
      var k: nat :| IsKid(s, p, k);
      assert p != e.p ==> IsKid(SleepStep(s, e), p, k);
    }
  }

  lemma UsedWait(s: State, e: Event, c: nat)
    requires Facts(s, e, c) && WaitEnabled(s, e)
    ensures UsedOk(WaitStep(s, e), c)
  {
    if WaitStep(s, e).mode[c] == Used {
      if s.mode[c] == Used {
        var p: nat :| Makes(s, p, c);
        assert Makes(WaitStep(s, e), p, c);
      }
    }
  }

  lemma NamedWait(s: State, e: Event, p: nat)
    requires Facts(s, e, p) && WaitEnabled(s, e)
    ensures NamedOk(WaitStep(s, e), p)
  {
  }

  lemma ParentWait(s: State, e: Event, p: nat)
    requires Facts(s, e, p) && WaitEnabled(s, e)
    ensures HasParent(WaitStep(s, e), p)
  {
  }

  lemma KidsWait(s: State, e: Event, p: nat)
    requires Facts(s, e, p) && WaitEnabled(s, e)
    ensures KidsOk(WaitStep(s, e), p)
  {
    if Scanning(WaitStep(s, e).pc[p]) && WaitStep(s, e).pc[p].kids {
      if Scanning(s.pc[p]) && s.pc[p].kids {
        var k: nat :| IsKid(s, p, k);
        assert IsKid(WaitStep(s, e), p, k);
      } else {
        assert IsKid(WaitStep(s, e), p, s.pc[p].k);
      }
    }
  }

  /** What is known of two slots, and of the one that e.p is working on. */
  predicate TwoFacts(s: State, e: Event, p: nat, k: nat) {
    && Whole(s) && p < Size(s) && k < Size(s) && e.p < Size(s) && KinAt(s, p, k) && PidOk(s, p) && PidOk(s, k)
    && PidsDiffer(s, p, e.p) && MakingOk(s, e.p) && NamedOk(s, e.p) && MakersBelow(s) && PidOk(s, e.p)
    && ModesOk(s, p) && ModesOk(s, k) && ModesOk(s, e.p)
  }

  lemma KeepsLaunch(s: State, e: Event, p: nat, k: nat)
    requires TwoFacts(s, e, p, k) && ForkEnabled(s, e) && e.Launch?
    ensures Keeps(ForkStep(s, e), p, k)
  {
  }

  lemma KeepsFork(s: State, e: Event, p: nat, k: nat)
    requires TwoFacts(s, e, p, k) && ForkEnabled(s, e) && !e.Launch?
    ensures Keeps(ForkStep(s, e), p, k)
  {
    assert s.pid[k] in s.forker ==> s.forker[s.pid[k]] < s.nextpid;
    assert MadeBy(ForkStep(s, e), p, k) && Exists(s.mode[k]) && Settled(s.mode[p]) ==> MadeBy(s, p, k);
  }

  lemma ChildlessFork(s: State, e: Event, p: nat, k: nat)
    requires TwoFacts(s, e, p, k) && ForkEnabled(s, e) && !e.Launch?
    ensures Childless(ForkStep(s, e), p, k)
  {
    assert s.pid[k] in s.forker ==> s.forker[s.pid[k]] < s.nextpid;
  }

  lemma ChildlessLaunch(s: State, e: Event, p: nat, k: nat)
    requires TwoFacts(s, e, p, k) && ForkEnabled(s, e) && e.Launch?
    ensures Childless(ForkStep(s, e), p, k)
  {
  }

  lemma SeenKidFork(s: State, e: Event, p: nat, k: nat)
    requires TwoFacts(s, e, p, k) && ForkEnabled(s, e) && WaitLockOk(s, p) && WaitLockOk(s, e.p)
    ensures SeenKid(ForkStep(s, e), p, k)
  {
  }

  lemma KeepsSched(s: State, e: Event, p: nat, k: nat)
    requires TwoFacts(s, e, p, k) && SchedEnabled(s, e)
    ensures Keeps(SchedStep(s, e), p, k) && Childless(SchedStep(s, e), p, k)
  {
  }

  lemma SeenKidSched(s: State, e: Event, p: nat, k: nat)
    requires TwoFacts(s, e, p, k) && SchedEnabled(s, e) && WaitLockOk(s, p) && WaitLockOk(s, e.p)
    ensures SeenKid(SchedStep(s, e), p, k)
  {
  }

  lemma KinExit(s: State, t: State, e: Event, p: nat, k: nat)
    requires ExitMoves(s, t, e, p) && ExitMoves(s, t, e, k) && KinAt(s, p, k) && (p != e.p ==> !Scanning(s.pc[p]))
    ensures KinAt(t, p, k)
  {
  }

  /** While e.p is in kexit nobody else is in kwait's loop. */
  lemma ExitAlone(s: State, e: Event, p: nat)
    requires Whole(s) && e.p < Size(s) && p < Size(s) && ExitEnabled(s, e) && WaitLockOk(s, p) && WaitLockOk(s, e.p)
    ensures p != e.p ==> !Scanning(s.pc[p])
  {
  }

  lemma KeepsDie(s: State, e: Event, p: nat, k: nat)
    requires TwoFacts(s, e, p, k) && DieEnabled(s, e)
    ensures Keeps(DieStep(s, e), p, k) && Childless(DieStep(s, e), p, k)
  {
  }

  lemma SeenKidDie(s: State, e: Event, p: nat, k: nat)
    requires TwoFacts(s, e, p, k) && DieEnabled(s, e) && WaitLockOk(s, p) && WaitLockOk(s, e.p)
    ensures SeenKid(DieStep(s, e), p, k)
  {
  }

  lemma KeepsSleep(s: State, e: Event, p: nat, k: nat)
    requires TwoFacts(s, e, p, k) && SleepEnabled(s, e)
    ensures Keeps(SleepStep(s, e), p, k) && Childless(SleepStep(s, e), p, k)
  {
  }

  lemma SeenKidSleep(s: State, e: Event, p: nat, k: nat)
    requires TwoFacts(s, e, p, k) && SleepEnabled(s, e) && WaitLockOk(s, p) && WaitLockOk(s, e.p)
    ensures SeenKid(SleepStep(s, e), p, k)
  {
  }

  predicate LookFacts(s: State, e: Event, p: nat, k: nat) {
    && TwoFacts(s, e, p, k) && LookOk(s, e.p) && LookOk(s, p) && WaitLockOk(s, p) && WaitLockOk(s, e.p)
    && (s.pc[e.p].Looking? && s.pc[e.p].k < Size(s) ==> ModesOk(s, s.pc[e.p].k))
  }

  lemma KeepsWait(s: State, e: Event, p: nat, k: nat)
    requires LookFacts(s, e, p, k) && WaitEnabled(s, e)
    ensures Keeps(WaitStep(s, e), p, k)
  {
  }

  lemma ChildlessWait(s: State, e: Event, p: nat, k: nat)
    requires LookFacts(s, e, p, k) && WaitEnabled(s, e)
    ensures Childless(WaitStep(s, e), p, k)
  {
  }

  lemma SeenKidWait(s: State, e: Event, p: nat, k: nat)
    requires LookFacts(s, e, p, k) && WaitEnabled(s, e)
    ensures SeenKid(WaitStep(s, e), p, k)
  {
  }

  lemma SlotKept(s: State, e: Event, p: nat)
    requires Facts(s, e, p) && Enabled(s, e)
    ensures SlotAt(Step(s, e), p)
  {
    if IsSched(e) {
      UsedSched(s, e, p);
      NamedSched(s, e, p);
      ParentSched(s, e, p);
      KidsSched(s, e, p);
    } else if IsFork(e) {
      UsedFork(s, e, p);
      NamedFork(s, e, p);
      ParentFork(s, e, p);
      KidsFork(s, e, p);
    } else if IsExit(e) {
      SlotExit(s, e, p);
    } else if IsDie(e) {
      UsedDie(s, e, p);
      NamedDie(s, e, p);
      ParentDie(s, e, p);
      KidsDie(s, e, p);
    } else if IsSleep(e) {
      UsedSleep(s, e, p);
      NamedSleep(s, e, p);
      ParentSleep(s, e, p);
      KidsSleep(s, e, p);
    } else {
      UsedWait(s, e, p);
      NamedWait(s, e, p);
      ParentWait(s, e, p);
      KidsWait(s, e, p);
    }
  }

  lemma KinKept(s: State, e: Event, p: nat, k: nat)
    requires LookFacts(s, e, p, k) && Enabled(s, e)
    ensures KinAt(Step(s, e), p, k)
  {
    if IsSched(e) {
      KeepsSched(s, e, p, k);
      SeenKidSched(s, e, p, k);
    } else if IsFork(e) {
      if e.Launch? {
        KeepsLaunch(s, e, p, k);
        ChildlessLaunch(s, e, p, k);
      } else {
        KeepsFork(s, e, p, k);
        ChildlessFork(s, e, p, k);
      }
      SeenKidFork(s, e, p, k);
    } else if IsExit(e) {
      ExitMovesOn(s, e, p);
      ExitMovesOn(s, e, k);
      ExitAlone(s, e, p);
      KinExit(s, ExitStep(s, e), e, p, k);
    } else if IsDie(e) {
      KeepsDie(s, e, p, k);
      SeenKidDie(s, e, p, k);
    } else if IsSleep(e) {
      KeepsSleep(s, e, p, k);
      SeenKidSleep(s, e, p, k);
    } else {
      KeepsWait(s, e, p, k);
      ChildlessWait(s, e, p, k);
      SeenKidWait(s, e, p, k);
    }
  }

  lemma MakersFollow(s: State, e: Event)
    requires Enabled(s, e) && MakersBelow(s) && PidOk(s, e.p) && ModesOk(s, e.p)
    ensures MakersBelow(Step(s, e))
  {
    if e.Die? {
      assert Step(s, e).forker == s.forker;
    } else if !IsFork(e) {
      RecordsRest(s, e);
    }
  }

  lemma FactsOf(s: State, e: Event, p: nat)
    requires Kin(s) && Enabled(s, e) && p < Size(s)
    ensures Facts(s, e, p)
  {
    assert LocksAt(s, p) && LocksAt(s, e.p) && FamilyAt(s, p) && FamilyAt(s, e.p) && SlotAt(s, p) && SlotAt(s, e.p);
    assert PairAt(s, p, e.p);
    assert At(s, e) < Size(s);
    assert LocksAt(s, At(s, e)) && FamilyAt(s, At(s, e));
  }

  lemma TwoFactsOf(s: State, e: Event, p: nat, k: nat)
    requires Kin(s) && Enabled(s, e) && p < Size(s) && k < Size(s)
    ensures LookFacts(s, e, p, k)
  {
    FactsOf(s, e, p);
    assert KinAt(s, p, k) && FamilyAt(s, k) && LocksAt(s, k);
  }

  lemma StepKeeps(s: State, e: Event)
    requires Kin(s) && Enabled(s, e)
    ensures Kin(Step(s, e))
  {
    var t := Step(s, e);
    ExitWait.StepKeeps(s, e);
    InitKept(s, e);
    FactsOf(s, e, e.p);
    MakersFollow(s, e);
    forall p | 0 <= p < Size(s)
      ensures SlotAt(t, p)
    {
      FactsOf(s, e, p);
      SlotKept(s, e, p);
    }
    forall p, k | 0 <= p < Size(s) && 0 <= k < Size(s)
      ensures KinAt(t, p, k)
    {
      TwoFactsOf(s, e, p, k);
      KinKept(s, e, p, k);
    }
  }

  lemma {:induction false} RunKeeps(s: State, es: seq<Event>, t: State)
    requires Kin(s) && Run(s, es, t)
    ensures Kin(t)
    decreases |es|
  {
    if es != [] {
      StepKeeps(s, es[0]);
      RunKeeps(Step(s, es[0]), es[1..], t);
    }
  }

  // ---------- what every run guarantees ----------

  /** No fork is left half done: a slot that is not free and cannot run yet belongs to a process that is making it. */
  lemma UsedIsBeingMade(n: nat, es: seq<Event>, t: State, c: nat)
    requires n > 0 && Run(Start(n), es, t) && Whole(t) && c < Size(t) && t.mode[c] == Used
    ensures exists p: nat :: Makes(t, p, c)
  {
    StartKin(n);
    RunKeeps(Start(n), es, t);
    assert SlotAt(t, c);
  }

  /** Every process but init has a parent: the one that made it, until that one exits and hands it on, and init then. */
  lemma ParentIsMaker(n: nat, es: seq<Event>, t: State, k: nat, p: nat)
    requires n > 0 && Run(Start(n), es, t) && Whole(t) && k < Size(t) && p < Size(t) && k != 0 && Exists(t.mode[k])
    ensures t.parent[k].Some?
    ensures t.parent[k] == Some(0) || (t.parent[k].value < Size(t) && MadeBy(t, t.parent[k].value, k))
    ensures Settled(t.mode[p]) && MadeBy(t, p, k) ==> t.parent[k] == Some(p) || Dealt(t.pc[p], k)
  {
    StartKin(n);
    RunKeeps(Start(n), es, t);
    assert SlotAt(t, k) && KinAt(t, p, k) && FamilyAt(t, k);
  }

  /** kwait of a process that has not been killed gives up exactly when it has no children, and sleeps when it has. */
  lemma GivesUpWithoutChildren(n: nat, es: seq<Event>, t: State, p: nat)
    requires n > 0 && Run(Start(n), es, t) && Whole(t) && p < Size(t)
    requires t.cpu[p] == On && t.pc[p].Waiting? && t.pc[p].k == Size(t)
    ensures Enabled(t, GiveUp(p, false)) <==> !exists k: nat :: IsKid(t, p, k)
    ensures Enabled(t, Sleep(p)) <==> t.holder[p] == Nobody && exists k: nat :: IsKid(t, p, k)
  {
    StartKin(n);
    RunKeeps(Start(n), es, t);
    KidsKnown(t, p);
    AfterScan(t, p);
  }

  lemma AfterScan(t: State, p: nat)
    requires Whole(t) && p < Size(t) && t.cpu[p] == On && t.pc[p].Waiting? && t.pc[p].k == Size(t)
    ensures Enabled(t, GiveUp(p, false)) <==> !t.pc[p].kids
    ensures Enabled(t, Sleep(p)) <==> t.holder[p] == Nobody && t.pc[p].kids
  {
  }

  lemma KidsKnown(t: State, p: nat)
    requires Kin(t) && p < Size(t) && t.pc[p].Waiting? && t.pc[p].k == Size(t)
    ensures t.pc[p].kids <==> exists k: nat :: IsKid(t, p, k)
  {
    assert SlotAt(t, p);
    forall k: nat | IsKid(t, p, k)
      ensures t.pc[p].kids
    {
      assert KinAt(t, p, k);
    }
  }

  // ---------- what is recorded has happened ----------

  /** In the run es from s, the process pid exits with this status. */
  predicate Exited(s: State, es: seq<Event>, pid: nat, status: int)
    decreases |es|
  {
    es != [] && Enabled(s, es[0]) &&
    ((es[0].Die? && s.pid[es[0].p] == pid && es[0].status == status) || Exited(Step(s, es[0]), es[1..], pid, status))
  }

  /** In the run es from s, the process by makes the process pid. */
  predicate Forked(s: State, es: seq<Event>, pid: nat, maker: nat)
    decreases |es|
  {
    es != [] && Enabled(s, es[0]) &&
    ((es[0].Alloc? && s.nextpid == pid && s.pid[es[0].p] == maker) || Forked(Step(s, es[0]), es[1..], pid, maker))
  }

  lemma {:induction false} RecordsHappened(s: State, es: seq<Event>, t: State, pid: nat)
    requires Run(s, es, t)
    ensures pid in t.exits ==> Exited(s, es, pid, t.exits[pid]) || (pid in s.exits && s.exits[pid] == t.exits[pid])
    ensures pid in t.forker ==>
              Forked(s, es, pid, t.forker[pid]) || (pid in s.forker && s.forker[pid] == t.forker[pid])
    decreases |es|
  {
    if es != [] {
      RecordsHappened(Step(s, es[0]), es[1..], t, pid);
      RecordedNow(s, es[0], pid);
    }
  }

  lemma RecordedNow(s: State, e: Event, pid: nat)
    requires Enabled(s, e)
    ensures var t := Step(s, e);
            && (pid in t.exits ==> (e.Die? && s.pid[e.p] == pid && e.status == t.exits[pid])
                                   || (pid in s.exits && s.exits[pid] == t.exits[pid]))
            && (pid in t.forker ==> (e.Alloc? && s.nextpid == pid && s.pid[e.p] == t.forker[pid])
                                    || (pid in s.forker && s.forker[pid] == t.forker[pid]))
  {
    if e.Die? {
      assert Step(s, e).forker == s.forker && Step(s, e).exits == s.exits[s.pid[e.p] := e.status];
    } else if IsFork(e) {
      assert Step(s, e).exits == s.exits;
      assert Step(s, e).forker == if e.Alloc? then s.forker[s.nextpid := s.pid[e.p]] else s.forker;
    } else {
      RecordsRest(s, e);
    }
  }

  /** What kwait returns is the status of a kexit in the run, of a process that was made in it by the waiting process
      or is returned to init. */
  lemma ReportsAreTrue(n: nat, es: seq<Event>, t: State, i: nat)
    requires n > 0 && Run(Start(n), es, t) && i < |t.reports|
    ensures var r := t.reports[i];
            && Exited(Start(n), es, r.pid, r.status)
            && (r.waiter == 0 || Forked(Start(n), es, r.pid, r.waiterPid))
  {
    ReportedOnce(n, es, t, i, i);
    RecordsHappened(Start(n), es, t, t.reports[i].pid);
  }

  // ---------- sleep ----------

  /** e is a wakeup that reaches p: by the exit of a child, by a child given to init, or from outside. */
  predicate Wakes(s: State, e: Event, p: nat) {
    || (e.Awaken? && e.p == p)
    || (e.RouseInit? && p == 0)
    || (e.RouseParent? && e.p < |s.parent| && s.parent[e.p] == Some(p))
  }

  predicate Woken(s: State, es: seq<Event>, p: nat)
    decreases |es|
  {
    es != [] && Enabled(s, es[0]) && (Wakes(s, es[0], p) || Woken(Step(s, es[0]), es[1..], p))
  }

  /** A process that has gone to sleep in kwait does not run until it is woken up. */
  lemma SleepsUntilWoken(n: nat, es: seq<Event>, s: State, p: nat, fs: seq<Event>, t: State)
    requires n > 0 && Run(Start(n), es, s) && Enabled(s, Doze(p)) && Run(Step(s, Doze(p)), fs, t)
    ensures Woken(Step(s, Doze(p)), fs, p) || (p < |t.mode| && t.mode[p] == Sleeping)
  {
    StartInv(n);
    ExitWait.RunKeeps(Start(n), es, s);
    ExitWait.StepKeeps(s, Doze(p));
    FallsAsleep(s, p);
    if !Woken(Step(s, Doze(p)), fs, p) {
      StaysAsleep(Step(s, Doze(p)), fs, t, p);
    }
  }

  lemma FallsAsleep(s: State, p: nat)
    requires Enabled(s, Doze(p))
    ensures Size(Step(s, Doze(p))) == Size(s) && Step(s, Doze(p)).mode[p] == Sleeping
  {
  }

  lemma {:induction false} StaysAsleep(s: State, es: seq<Event>, t: State, p: nat)
    requires Inv(s) && p < Size(s) && s.mode[p] == Sleeping && Run(s, es, t) && !Woken(s, es, p)
    ensures p < |t.mode| && t.mode[p] == Sleeping
    decreases |es|
  {
    if es != [] {
      assert LocksAt(s, p) && LocksAt(s, es[0].p) && FamilyAt(s, es[0].p);
      AsleepStep(s, es[0], p);
      ExitWait.StepKeeps(s, es[0]);
      StaysAsleep(Step(s, es[0]), es[1..], t, p);
    }
  }

  lemma AsleepStep(s: State, e: Event, p: nat)
    requires Enabled(s, e) && p < Size(s) && s.mode[p] == Sleeping && !Wakes(s, e, p)
    requires ModesOk(s, p) && ModesOk(s, e.p) && MakingOk(s, e.p)
    ensures Size(Step(s, e)) == Size(s) && Step(s, e).mode[p] == Sleeping
  {
    if IsFork(e) {
      AsleepFork(s, e, p);
    } else if IsExit(e) {
      AsleepExit(s, e, p);
    } else {
      AsleepRest(s, e, p);
    }
  }

  lemma AsleepFork(s: State, e: Event, p: nat)
    requires Whole(s) && e.p < Size(s) && ForkEnabled(s, e) && p < Size(s) && s.mode[p] == Sleeping && MakingOk(s, e.p)
    ensures Size(ForkStep(s, e)) == Size(s) && ForkStep(s, e).mode[p] == Sleeping
  {
  }

  lemma AsleepExit(s: State, e: Event, p: nat)
    requires Whole(s) && e.p < Size(s) && ExitEnabled(s, e) && p < Size(s) && s.mode[p] == Sleeping && !Wakes(s, e, p)
    ensures Size(ExitStep(s, e)) == Size(s) && ExitStep(s, e).mode[p] == Sleeping
  {
  }

  lemma AsleepRest(s: State, e: Event, p: nat)
    requires Enabled(s, e) && !IsFork(e) && !IsExit(e) && p < Size(s) && s.mode[p] == Sleeping && !Wakes(s, e, p)
    requires ModesOk(s, p) && ModesOk(s, e.p)
    ensures Size(Step(s, e)) == Size(s) && Step(s, e).mode[p] == Sleeping
  {
  }
}
