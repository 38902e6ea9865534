/** fork, exit, wait and the scheduler: every interleaving of any number of processes under wait_lock
    and the lock of each process. Process 0 is init. */
module ExitWait {
  import opened Basics

  datatype Mode = Unused | Used | Sleeping | Runnable | Running | Zombie

  /** Whether a CPU is on the process's kernel stack: Entering and Leaving while the lock of the process
      passes between it and the scheduler. */
  datatype Cpu = Off | Entering | On | Leaving

  datatype Pc =
    | Gone                       // no process in this slot, or one that kfork has not finished
    | Fresh                      // made by kfork, not yet run
    | User                       // outside the calls below
    | Forking(c: nat)            // kfork holds the lock of the new process c
    | Adopting(c: nat)           // that lock released, wait_lock wanted
    | Naming(c: nat)             // holds wait_lock
    | Named(c: nat)              // wait_lock released, the lock of c wanted
    | Launching(c: nat)          // holds the lock of c
    | Exiting(k: nat)            // holds wait_lock, reparent has dealt with the slots before k
    | Rousing(k: nat)            // holds wait_lock, has given slot k to init and is about to wake init up
    | Roused                     // holds wait_lock, has woken its parent up
    | Ending                     // holds wait_lock and its own lock
    | Ended                      // Zombie, holds both
    | Dead                       // Zombie, wait_lock released, in or past sched
    | Waiting(k: nat, kids: bool) // holds wait_lock, kwait has looked at the slots before k
    | Looking(k: nat, kids: bool) // holds wait_lock and the lock of slot k
    | Parting                    // in sleep, holds wait_lock and its own lock
    | Dozing                     // wait_lock released
    | Slept                      // switched away in sleep
    | Retaking                   // out of sleep, wait_lock wanted

  datatype Holder = Nobody | Proc(q: nat)

  /** What a kwait returned: the status of the process pid, to the process waiterPid in slot waiter. */
  datatype Report = Report(pid: nat, status: int, waiter: nat, waiterPid: nat)

  /** The process table, wait_lock and the next pid. forker and exits record who made a process and how
      it ended; reports lists what kwait returned. */
  datatype State = State(
    mode: seq<Mode>, cpu: seq<Cpu>, holder: seq<Holder>, pc: seq<Pc>,
    parent: seq<Option<nat>>, pid: seq<nat>, xstate: seq<int>,
    wlock: Holder, nextpid: nat, forker: map<nat, nat>, exits: map<nat, int>, reports: seq<Report>)

  predicate Shape(s: State, n: nat) {
    |s.mode| == |s.cpu| == |s.holder| == |s.pc| == |s.parent| == |s.pid| == |s.xstate| == n
  }

  function Size(s: State): nat {
    |s.mode|
  }

  predicate Whole(s: State) {
    Shape(s, Size(s))
  }

  datatype Event =
    | Dispatch(p: nat) | Resume(p: nat) | Preempt(p: nat) | SchedRelease(p: nat) | Awaken(p: nat)
    | Alloc(p: nat, c: nat) | Abandon(p: nat) | Unlock(p: nat) | TakeWait(p: nat) | Name(p: nat)
    | LockChild(p: nat) | Launch(p: nat)
    | Exit(p: nat) | Reparent(p: nat) | RouseInit(p: nat) | RouseParent(p: nat)
    | LockSelf(p: nat) | Die(p: nat, status: int) | Depart(p: nat)
    | Wait(p: nat) | Skip(p: nat) | Look(p: nat) | Reap(p: nat) | Fault(p: nat) | Next(p: nat)
    | GiveUp(p: nat, killed: bool)
    | Sleep(p: nat) | Part(p: nat) | Doze(p: nat) | Retake(p: nat)

  /** Preemption waits while a process holds a spinlock. */
  predicate Lockless(c: Pc) {
    c.User? || c.Adopting? || c.Named? || c.Retaking?
  }

  /** Slot c exists and its lock is free. */
  predicate Free(s: State, c: nat) {
    c < |s.holder| && s.holder[c] == Nobody
  }

  /** Steps of the scheduler, and steps that take the CPU from a process. */
  predicate SchedEnabled(s: State, e: Event)
    requires Whole(s) && e.p < Size(s)
  {
    match e
    case Dispatch(p) => s.mode[p] == Runnable && s.holder[p] == Nobody
    case Resume(p) => s.cpu[p] == Entering
    case Preempt(p) => s.cpu[p] == On && Lockless(s.pc[p]) && s.holder[p] == Nobody
    case SchedRelease(p) => s.cpu[p] == Leaving
    case Awaken(p) => s.mode[p] == Sleeping && s.holder[p] == Nobody
    case _ => false
  }

  predicate ForkEnabled(s: State, e: Event)
    requires Whole(s) && e.p < Size(s)
  {
    s.cpu[e.p] == On &&
    match e
    case Alloc(p, c) => s.pc[p] == User && Free(s, c) && s.mode[c] == Unused
    case Abandon(p) => s.pc[p].Forking? && s.pc[p].c < Size(s)
    case Unlock(p) => s.pc[p].Forking? && s.pc[p].c < Size(s)
    case TakeWait(p) => s.pc[p].Adopting? && s.wlock == Nobody
    case Name(p) => s.pc[p].Naming? && s.pc[p].c < Size(s)
    case LockChild(p) => s.pc[p].Named? && Free(s, s.pc[p].c)
    case Launch(p) => s.pc[p].Launching? && s.pc[p].c < Size(s)
    case _ => false
  }

  predicate ExitEnabled(s: State, e: Event)
    requires Whole(s) && e.p < Size(s)
  {
    s.cpu[e.p] == On &&
    match e
    case Exit(p) => s.pc[p] == User && s.wlock == Nobody && p != 0
    case Reparent(p) => s.pc[p].Exiting? && s.pc[p].k < Size(s)
    case RouseInit(p) => s.pc[p].Rousing? && s.holder[0] == Nobody
    case RouseParent(p) =>
      s.pc[p] == Exiting(Size(s)) && (s.parent[p].Some? ==> Free(s, s.parent[p].value))
    case _ => false
  }

  predicate DieEnabled(s: State, e: Event)
    requires Whole(s) && e.p < Size(s)
  {
    s.cpu[e.p] == On &&
    match e
    case LockSelf(p) => s.pc[p] == Roused && s.holder[p] == Nobody
    case Die(p, status) => s.pc[p] == Ending
    case Depart(p) => s.pc[p] == Ended
    case _ => false
  }

  predicate WaitEnabled(s: State, e: Event)
    requires Whole(s) && e.p < Size(s)
  {
    s.cpu[e.p] == On &&
    match e
    case Wait(p) => s.pc[p] == User && s.wlock == Nobody
    case Skip(p) => s.pc[p].Waiting? && s.pc[p].k < Size(s) && s.parent[s.pc[p].k] != Some(p)
    case Look(p) => s.pc[p].Waiting? && s.pc[p].k < Size(s) && s.parent[s.pc[p].k] == Some(p) && Free(s, s.pc[p].k)
    case Reap(p) => s.pc[p].Looking? && s.pc[p].k < Size(s) && s.mode[s.pc[p].k] == Zombie
    case Fault(p) => s.pc[p].Looking? && s.pc[p].k < Size(s) && s.mode[s.pc[p].k] == Zombie
    case Next(p) => s.pc[p].Looking? && s.pc[p].k < Size(s) && s.mode[s.pc[p].k] != Zombie
    case GiveUp(p, killed) => s.pc[p].Waiting? && s.pc[p].k == Size(s) && (!s.pc[p].kids || killed)
    case _ => false
  }

  predicate SleepEnabled(s: State, e: Event)
    requires Whole(s) && e.p < Size(s)
  {
    s.cpu[e.p] == On &&
    match e
    case Sleep(p) => s.pc[p] == Waiting(Size(s), true) && s.holder[p] == Nobody
    case Part(p) => s.pc[p] == Parting
    case Doze(p) => s.pc[p] == Dozing
    case Retake(p) => s.pc[p] == Retaking && s.wlock == Nobody
    case _ => false
  }

  function Resumed(c: Pc): Pc {
    if c == Fresh then User else if c == Slept then Retaking else c
  }

  function SchedStep(s: State, e: Event): State
    requires Whole(s) && e.p < Size(s) && SchedEnabled(s, e)
  {
    match e
    case Dispatch(p) => s.(mode := s.mode[p := Running], cpu := s.cpu[p := Entering], holder := s.holder[p := Proc(p)])
    case Resume(p) => s.(cpu := s.cpu[p := On], holder := s.holder[p := Nobody], pc := s.pc[p := Resumed(s.pc[p])])
    case Preempt(p) => s.(mode := s.mode[p := Runnable], cpu := s.cpu[p := Leaving], holder := s.holder[p := Proc(p)])
    case SchedRelease(p) => s.(cpu := s.cpu[p := Off], holder := s.holder[p := Nobody])
    case Awaken(p) => s.(mode := s.mode[p := Runnable])
  }

  /** freeproc on slot c, and the release of its lock. */
  function FreeSlot(s: State, c: nat): State
    requires Whole(s) && c < Size(s)
  {
    s.(mode := s.mode[c := Unused], holder := s.holder[c := Nobody],
       pc := s.pc[c := Gone], parent := s.parent[c := None],
       pid := s.pid[c := 0], xstate := s.xstate[c := 0])
  }

  function ForkStep(s: State, e: Event): State
    requires Whole(s) && e.p < Size(s) && ForkEnabled(s, e)
  {
    match e
    case Alloc(p, c) =>
      s.(mode := s.mode[c := Used], holder := s.holder[c := Proc(p)],
         pid := s.pid[c := s.nextpid], pc := s.pc[p := Forking(c)],
         nextpid := s.nextpid + 1, forker := s.forker[s.nextpid := s.pid[p]])
    case Abandon(p) => FreeSlot(s, s.pc[p].c).(pc := s.pc[s.pc[p].c := Gone][p := User])
    case Unlock(p) => s.(holder := s.holder[s.pc[p].c := Nobody], pc := s.pc[p := Adopting(s.pc[p].c)])
    case TakeWait(p) => s.(pc := s.pc[p := Naming(s.pc[p].c)], wlock := Proc(p))
    case Name(p) => s.(parent := s.parent[s.pc[p].c := Some(p)], pc := s.pc[p := Named(s.pc[p].c)], wlock := Nobody)
    case LockChild(p) => s.(holder := s.holder[s.pc[p].c := Proc(p)], pc := s.pc[p := Launching(s.pc[p].c)])
    case Launch(p) =>
      s.(mode := s.mode[s.pc[p].c := Runnable], holder := s.holder[s.pc[p].c := Nobody],
         pc := s.pc[s.pc[p].c := Fresh][p := User])
  }

  /** wakeup at slot q, the one that may sleep on the channel. */
  function Rouse(s: State, q: nat): State
    requires Whole(s) && q < Size(s)
  {
    if s.mode[q] == Sleeping then s.(mode := s.mode[q := Runnable]) else s
  }

  function ExitStep(s: State, e: Event): State
    requires Whole(s) && e.p < Size(s) && ExitEnabled(s, e)
  {
    match e
    case Exit(p) => s.(pc := s.pc[p := Exiting(0)], wlock := Proc(p))
    case Reparent(p) =>
      var k := s.pc[p].k;
      if s.parent[k] == Some(p) then s.(parent := s.parent[k := Some(0)], pc := s.pc[p := Rousing(k)])
      else s.(pc := s.pc[p := Exiting(k + 1)])
    case RouseInit(p) => Rouse(s, 0).(pc := s.pc[p := Exiting(s.pc[p].k + 1)])
    case RouseParent(p) => (if s.parent[p].Some? then Rouse(s, s.parent[p].value) else s).(pc := s.pc[p := Roused])
  }

  function DieStep(s: State, e: Event): State
    requires Whole(s) && e.p < Size(s) && DieEnabled(s, e)
  {
    match e
    case LockSelf(p) => s.(pc := s.pc[p := Ending], holder := s.holder[p := Proc(p)])
    case Die(p, status) =>
      s.(pc := s.pc[p := Ended], mode := s.mode[p := Zombie],
         xstate := s.xstate[p := status], exits := s.exits[s.pid[p] := status])
    case Depart(p) => s.(pc := s.pc[p := Dead], cpu := s.cpu[p := Leaving], wlock := Nobody)
  }

  function WaitStep(s: State, e: Event): State
    requires Whole(s) && e.p < Size(s) && WaitEnabled(s, e)
  {
    match e
    case Wait(p) => s.(pc := s.pc[p := Waiting(0, false)], wlock := Proc(p))
    case Skip(p) => s.(pc := s.pc[p := Waiting(s.pc[p].k + 1, s.pc[p].kids)])
    case Look(p) => s.(pc := s.pc[p := Looking(s.pc[p].k, s.pc[p].kids)], holder := s.holder[s.pc[p].k := Proc(p)])
    case Reap(p) =>
      var k := s.pc[p].k;
      FreeSlot(s, k).(pc := s.pc[k := Gone][p := User], wlock := Nobody,
                      reports := s.reports + [Report(s.pid[k], s.xstate[k], p, s.pid[p])])
    case Fault(p) => s.(pc := s.pc[p := User], holder := s.holder[s.pc[p].k := Nobody], wlock := Nobody)
    case Next(p) => s.(pc := s.pc[p := Waiting(s.pc[p].k + 1, true)], holder := s.holder[s.pc[p].k := Nobody])
    case GiveUp(p, _) => s.(pc := s.pc[p := User], wlock := Nobody)
  }

  function SleepStep(s: State, e: Event): State
    requires Whole(s) && e.p < Size(s) && SleepEnabled(s, e)
  {
    match e
    case Sleep(p) => s.(pc := s.pc[p := Parting], holder := s.holder[p := Proc(p)])
    case Part(p) => s.(pc := s.pc[p := Dozing], wlock := Nobody)
    case Doze(p) => s.(mode := s.mode[p := Sleeping], pc := s.pc[p := Slept], cpu := s.cpu[p := Leaving])
    case Retake(p) => s.(pc := s.pc[p := Waiting(0, false)], wlock := Proc(p))
  }

  predicate IsSched(e: Event) {
    e.Dispatch? || e.Resume? || e.Preempt? || e.SchedRelease? || e.Awaken?
  }

  predicate IsFork(e: Event) {
    e.Alloc? || e.Abandon? || e.Unlock? || e.TakeWait? || e.Name? || e.LockChild? || e.Launch?
  }

  predicate IsExit(e: Event) {
    e.Exit? || e.Reparent? || e.RouseInit? || e.RouseParent?
  }

  predicate IsDie(e: Event) {
    e.LockSelf? || e.Die? || e.Depart?
  }

  predicate IsSleep(e: Event) {
    e.Sleep? || e.Part? || e.Doze? || e.Retake?
  }

  predicate Enabled(s: State, e: Event) {
    && Whole(s) && e.p < Size(s)
    && if IsSched(e) then SchedEnabled(s, e) else if IsFork(e) then ForkEnabled(s, e)
       else if IsExit(e) then ExitEnabled(s, e) else if IsDie(e) then DieEnabled(s, e)
       else if IsSleep(e) then SleepEnabled(s, e) else WaitEnabled(s, e)
  }

  function Step(s: State, e: Event): State
    requires Enabled(s, e)
  {
    if IsSched(e) then SchedStep(s, e) else if IsFork(e) then ForkStep(s, e)
    else if IsExit(e) then ExitStep(s, e) else if IsDie(e) then DieStep(s, e)
    else if IsSleep(e) then SleepStep(s, e) else WaitStep(s, e)
  }

  /** After boot: init can run, all other slots are unused. */
  function Start(n: nat): State
    requires n > 0
  {
    State(seq(n, _ => Unused)[0 := Runnable], seq(n, _ => Off),
        seq(n, _ => Nobody), seq(n, _ => Gone)[0 := Fresh], seq(n, _ => None),
          seq(n, _ => 0)[0 := 1], seq(n, _ => 0), Nobody, 2, map[], map[], [])
  }

  predicate Run(s: State, es: seq<Event>, t: State)
    decreases |es|
  {
    if es == [] then s == t else Enabled(s, es[0]) && Run(Step(s, es[0]), es[1..], t)
  }

  // ---------- the invariant ----------

  predicate HasWait(c: Pc) {
    || c.Naming? || c.Exiting? || c.Rousing? || c.Roused? || c.Ending? || c.Ended?
    || c.Waiting? || c.Looking? || c.Parting?
  }

  predicate HasOwn(x: Cpu, c: Pc) {
    x == Entering || x == Leaving || c.Ending? || c.Ended? || c.Parting? || c.Dozing?
  }

  /** The other process whose lock a process at c holds. */
  function Other(c: Pc): Option<nat> {
    match c
    case Forking(i) => Some(i)
    case Launching(i) => Some(i)
    case Looking(k, _) => Some(k)
    case _ => None
  }

  predicate WaitLockOk(s: State, p: nat) {
    p < |s.pc| && (HasWait(s.pc[p]) <==> s.wlock == Proc(p))
  }

  predicate OwnLockOk(s: State, p: nat) {
    p < |s.pc| && p < |s.cpu| && p < |s.holder| && (HasOwn(s.cpu[p], s.pc[p]) <==> s.holder[p] == Proc(p))
  }

  predicate OtherLockOk(s: State, p: nat) {
    p < |s.pc| && (Other(s.pc[p]).Some? ==>
      var c := Other(s.pc[p]).value; c < |s.holder| && c != p && s.holder[c] == Proc(p))
  }

  predicate HolderOk(s: State, p: nat) {
    p < |s.holder| && (s.holder[p].Proc? && s.holder[p].q != p ==>
        s.holder[p].q < |s.pc| && Other(s.pc[s.holder[p].q]) == Some(p))
  }

  predicate Resumable(c: Pc) {
    Lockless(c) || c.Fresh? || c.Slept?
  }

  predicate ModeOk(m: Mode, x: Cpu, c: Pc) {
    match m
    case Unused => x == Off && c == Gone
    case Used => x == Off && c == Gone
    case Runnable => (x == Off || x == Leaving) && Resumable(c)
    case Sleeping => (x == Off || x == Leaving) && c == Slept
    case Running => if x == Entering then Resumable(c)
        else x == On && c != Gone && c != Fresh && c != Slept && c != Ended && c != Dead
    case Zombie => (c == Ended && x == On) || (c == Dead && (x == Leaving || x == Off))
  }

  predicate ModesOk(s: State, p: nat) {
    p < |s.mode| && p < |s.cpu| && p < |s.pc| && ModeOk(s.mode[p], s.cpu[p], s.pc[p])
  }

  /** The process that a process at c is making. */
  function Making(c: Pc): Option<nat> {
    match c
    case Forking(i) => Some(i)
    case Adopting(i) => Some(i)
    case Naming(i) => Some(i)
    case Named(i) => Some(i)
    case Launching(i) => Some(i)
    case _ => None
  }

  predicate MakingOk(s: State, p: nat) {
    && Whole(s) && p < Size(s)
    && (Making(s.pc[p]).Some? ==>
          var c := Making(s.pc[p]).value;
          && c < Size(s) && c != p && s.mode[c] == Used && s.pid[c] in s.forker && s.forker[s.pid[c]] == s.pid[p])
  }

  predicate OneMaker(s: State, p: nat, q: nat) {
    p < |s.pc| && q < |s.pc| && Making(s.pc[p]).Some? && Making(s.pc[p]) == Making(s.pc[q]) ==> p == q
  }

  predicate Settled(m: Mode) {
    m != Unused && m != Used && m != Zombie
  }

  /** A parent pointer names a process that can still wait: init, or the process that made this one. */
  predicate ParentOk(s: State, k: nat) {
    && Whole(s) && k < Size(s) && (s.parent[k].Some? ==>
         var q := s.parent[k].value;
         && s.mode[k] != Unused && q < Size(s) && q != k && Settled(s.mode[q]) && s.pc[q] != Ending && s.pc[q] != Roused
         && (s.pc[q].Exiting? ==> s.pc[q].k <= k) && (s.pc[q].Rousing? ==> s.pc[q].k < k)
         && (q == 0 || (s.pid[k] in s.forker && s.forker[s.pid[k]] == s.pid[q])))
  }

  predicate InitOk(s: State) {
    && Whole(s) && Size(s) > 0 && Settled(s.mode[0]) && s.parent[0] == None
    && !s.pc[0].Exiting? && !s.pc[0].Rousing? && s.pc[0] != Roused && s.pc[0] != Ending && s.pc[0] != Ended
    && s.pc[0] != Dead
  }

  predicate PidOk(s: State, p: nat) {
    && Whole(s) && p < Size(s) && (s.mode[p] != Unused ==>
         && 0 < s.pid[p] < s.nextpid
         && (if s.mode[p] == Zombie then s.pid[p] in s.exits && s.exits[s.pid[p]] == s.xstate[p]
                else s.pid[p] !in s.exits))
  }

  predicate PidsDiffer(s: State, p: nat, q: nat) {
    Whole(s) && p < Size(s) && q < Size(s) && s.mode[p] != Unused && s.mode[q] != Unused && s.pid[p] == s.pid[q] ==>
        p == q
  }

  predicate ReportOk(s: State, i: nat) {
    i < |s.reports| &&
    var r := s.reports[i];
    && r.pid in s.exits && s.exits[r.pid] == r.status && r.pid < s.nextpid
    && (r.waiter == 0 || (r.pid in s.forker && s.forker[r.pid] == r.waiterPid))
  }

  /** The process of a report is gone for good. */
  predicate ReportGone(s: State, i: nat, p: nat) {
    Whole(s) && i < |s.reports| && p < Size(s) && s.mode[p] != Unused ==> s.reports[i].pid != s.pid[p]
  }

  predicate ReportsDiffer(s: State, i: nat, j: nat) {
    i < j < |s.reports| ==> s.reports[i].pid != s.reports[j].pid
  }

  predicate PidsBelow(s: State) {
    (forall i :: i in s.exits ==> i < s.nextpid) && (forall i :: i in s.forker ==> i < s.nextpid)
  }

  /** kwait looks only at its own children. */
  predicate LookOk(s: State, p: nat) {
    Whole(s) && p < Size(s) && (s.pc[p].Looking? ==> s.pc[p].k < Size(s) && s.parent[s.pc[p].k] == Some(p))
  }

  predicate LocksAt(s: State, p: nat) {
    WaitLockOk(s, p) && OwnLockOk(s, p) && OtherLockOk(s, p) && HolderOk(s, p) && ModesOk(s, p)
  }

  predicate FamilyAt(s: State, p: nat) {
    MakingOk(s, p) && ParentOk(s, p) && PidOk(s, p) && LookOk(s, p)
  }

  predicate PairAt(s: State, p: nat, q: nat) {
    OneMaker(s, p, q) && PidsDiffer(s, p, q)
  }

  /** In kwait after its test: on the way to sleep, or asleep. */
  predicate GoingToSleep(s: State, p: nat) {
    p < |s.pc| && p < |s.mode| && (s.pc[p].Parting? || s.pc[p].Dozing? || (s.pc[p].Slept? && s.mode[p] == Sleeping))
  }

  /** What kwait of p has looked at: no zombie. */
  predicate SeenOk(s: State, p: nat, k: nat) {
    Whole(s) && p < Size(s) && k < Size(s) && (s.pc[p].Waiting? || s.pc[p].Looking?) && k < s.pc[p].k ==>
      s.parent[k] == Some(p) ==> s.mode[k] != Zombie
  }

  /** k has woken its parent p up and is about to become a zombie. */
  predicate RousedOk(s: State, p: nat, k: nat) {
    Whole(s) && p < Size(s) && k < Size(s) && (s.pc[k].Roused? || s.pc[k].Ending?) && s.parent[k] == Some(p) ==>
        !GoingToSleep(s, p)
  }

  predicate IsRousing(s: State, h: Holder) {
    h.Proc? && h.q < |s.pc| && s.pc[h.q].Rousing?
  }

  /** Nobody goes to sleep over a zombie, except that init is about to be woken up. */
  predicate ZombieOk(s: State, p: nat, k: nat) {
    Whole(s) && p < Size(s) && k < Size(s) && GoingToSleep(s, p) && s.parent[k] == Some(p) && s.mode[k] == Zombie
    ==> p == 0 && IsRousing(s, s.wlock)
  }

  predicate AwaitAt(s: State, p: nat, k: nat) {
    SeenOk(s, p, k) && RousedOk(s, p, k) && ZombieOk(s, p, k)
  }

  /** Who holds which lock and who may run; the family tree; what kwait has returned. */
  predicate Inv(s: State) {
    && Whole(s) && InitOk(s) && PidsBelow(s)
    && (forall p {:trigger LocksAt(s, p)} :: 0 <= p < Size(s) ==> LocksAt(s, p))
    && (forall p {:trigger FamilyAt(s, p)} :: 0 <= p < Size(s) ==> FamilyAt(s, p))
    && (forall p, q {:trigger PairAt(s, p, q)} :: 0 <= p < Size(s) && 0 <= q < Size(s) ==> PairAt(s, p, q))
    && (forall p, k {:trigger AwaitAt(s, p, k)} :: 0 <= p < Size(s) && 0 <= k < Size(s) ==> AwaitAt(s, p, k))
    && (forall i {:trigger ReportOk(s, i)} :: 0 <= i < |s.reports| ==> ReportOk(s, i))
    && (forall i, p {:trigger ReportGone(s, i, p)} :: 0 <= i < |s.reports| && 0 <= p < Size(s) ==> ReportGone(s, i, p))
    && (forall i, j {:trigger ReportsDiffer(s, i, j)} :: 0 <= i < j < |s.reports| ==> ReportsDiffer(s, i, j))
  }

  lemma StartInv(n: nat)
    requires n > 0
    ensures Inv(Start(n))
  {
  }

  // ---------- every step keeps it ----------

  /** What the invariant says about slot p and about the process that takes a step. */
  predicate LockFacts(s: State, e: Event, p: nat) {
    && Whole(s) && p < Size(s) && e.p < Size(s) && LocksAt(s, p) && LocksAt(s, e.p)
    && MakingOk(s, e.p) && ParentOk(s, p) && ParentOk(s, e.p)
    && (s.holder[p].Proc? && s.holder[p].q < Size(s) ==> ModesOk(s, s.holder[p].q))
  }

  lemma LocksSched(s: State, e: Event, p: nat)
    requires LockFacts(s, e, p) && SchedEnabled(s, e)
    ensures LocksAt(SchedStep(s, e), p)
  {
  }

  lemma LocksExitOwn(s: State, e: Event, p: nat)
    requires LockFacts(s, e, p) && ExitEnabled(s, e)
    ensures WaitLockOk(ExitStep(s, e), p) && OwnLockOk(ExitStep(s, e), p)
  {
  }

  lemma LocksDieOwn(s: State, e: Event, p: nat)
    requires LockFacts(s, e, p) && DieEnabled(s, e)
    ensures WaitLockOk(DieStep(s, e), p) && OwnLockOk(DieStep(s, e), p)
  {
  }

  lemma LocksExitOther(s: State, e: Event, p: nat)
    requires LockFacts(s, e, p) && ExitEnabled(s, e)
    ensures OtherLockOk(ExitStep(s, e), p)
  {
    ExitFrame(s, e);
  }

  /** kexit up to its own lock: only the pc of e.p changes, and it is in no other call. */
  lemma ExitFrame(s: State, e: Event)
    requires Whole(s) && e.p < Size(s) && ExitEnabled(s, e)
    ensures var t := ExitStep(s, e);
            && t.holder == s.holder && t.pid == s.pid && t.cpu == s.cpu && t.xstate == s.xstate && t.forker == s.forker
            && t.nextpid == s.nextpid && t.exits == s.exits && t.reports == s.reports && t.pc == s.pc[e.p := t.pc[e.p]]
    ensures var c := ExitStep(s, e).pc[e.p];
            Other(c) == None && Making(c) == None && !c.Looking?
  {
  }

  lemma LocksDieOther(s: State, e: Event, p: nat)
    requires LockFacts(s, e, p) && DieEnabled(s, e)
    ensures OtherLockOk(DieStep(s, e), p)
  {
  }

  lemma LocksExitHolder(s: State, e: Event, p: nat)
    requires LockFacts(s, e, p) && ExitEnabled(s, e)
    ensures HolderOk(ExitStep(s, e), p)
  {
  }

  lemma LocksDieHolder(s: State, e: Event, p: nat)
    requires LockFacts(s, e, p) && DieEnabled(s, e)
    ensures HolderOk(DieStep(s, e), p)
  {
  }

  lemma LocksExitModes(s: State, e: Event, p: nat)
    requires LockFacts(s, e, p) && ExitEnabled(s, e)
    ensures ModesOk(ExitStep(s, e), p)
  {
    ExitFrame(s, e);
    ExitModes(s, e, p);
  }

  lemma ExitModes(s: State, e: Event, p: nat)
    requires Whole(s) && e.p < Size(s) && ExitEnabled(s, e) && p < Size(s)
    ensures var t := ExitStep(s, e);
            && p < |t.mode| && (t.mode[p] == s.mode[p] || (s.mode[p] == Sleeping && t.mode[p] == Runnable))
            && (t.pc[e.p].Exiting? || t.pc[e.p].Rousing? || t.pc[e.p].Roused?) && s.cpu[e.p] == On
  {
  }

  lemma LocksDieModes(s: State, e: Event, p: nat)
    requires LockFacts(s, e, p) && DieEnabled(s, e)
    ensures ModesOk(DieStep(s, e), p)
  {
  }

  lemma LocksSleepOwn(s: State, e: Event, p: nat)
    requires LockFacts(s, e, p) && SleepEnabled(s, e)
    ensures WaitLockOk(SleepStep(s, e), p) && OwnLockOk(SleepStep(s, e), p) && ModesOk(SleepStep(s, e), p)
  {
  }

  lemma LocksSleepOther(s: State, e: Event, p: nat)
    requires LockFacts(s, e, p) && SleepEnabled(s, e)
    ensures OtherLockOk(SleepStep(s, e), p)
  {
  }

  lemma LocksSleepHolder(s: State, e: Event, p: nat)
    requires LockFacts(s, e, p) && SleepEnabled(s, e)
    ensures HolderOk(SleepStep(s, e), p)
  {
  }

  lemma LocksForkOwn(s: State, e: Event, p: nat)
    requires LockFacts(s, e, p) && ForkEnabled(s, e)
    ensures OwnLockOk(ForkStep(s, e), p)
  {
  }

  lemma LocksForkWait(s: State, e: Event, p: nat)
    requires LockFacts(s, e, p) && ForkEnabled(s, e)
    ensures WaitLockOk(ForkStep(s, e), p)
  {
  }

  lemma LocksForkOther(s: State, e: Event, p: nat)
    requires LockFacts(s, e, p) && ForkEnabled(s, e)
    ensures OtherLockOk(ForkStep(s, e), p)
  {
  }

  lemma LocksForkHolder(s: State, e: Event, p: nat)
    requires LockFacts(s, e, p) && ForkEnabled(s, e)
    ensures HolderOk(ForkStep(s, e), p)
  {
  }

  lemma LocksForkModes(s: State, e: Event, p: nat)
    requires LockFacts(s, e, p) && ForkEnabled(s, e)
    ensures ModesOk(ForkStep(s, e), p)
  {
  }

  lemma LocksWaitOwn(s: State, e: Event, p: nat)
    requires LockFacts(s, e, p) && WaitEnabled(s, e)
    ensures WaitLockOk(WaitStep(s, e), p) && OwnLockOk(WaitStep(s, e), p)
  {
  }

  lemma LocksWaitOther(s: State, e: Event, p: nat)
    requires LockFacts(s, e, p) && WaitEnabled(s, e)
    ensures OtherLockOk(WaitStep(s, e), p)
  {
  }

  lemma LocksWaitHolder(s: State, e: Event, p: nat)
    requires LockFacts(s, e, p) && WaitEnabled(s, e)
    ensures HolderOk(WaitStep(s, e), p)
  {
  }

  lemma LocksWaitModes(s: State, e: Event, p: nat)
    requires LockFacts(s, e, p) && WaitEnabled(s, e)
    ensures ModesOk(WaitStep(s, e), p)
  {
  }

  predicate FamilyFacts(s: State, e: Event, p: nat) {
    && Whole(s) && p < Size(s) && e.p < Size(s) && InitOk(s) && PidsBelow(s)
    && LocksAt(s, p) && LocksAt(s, e.p) && FamilyAt(s, p) && FamilyAt(s, e.p)
    && PairAt(s, p, e.p)
    && (Making(s.pc[p]).Some? ==> PidOk(s, Making(s.pc[p]).value))
  }

  lemma FamilySched(s: State, e: Event, p: nat)
    requires FamilyFacts(s, e, p) && SchedEnabled(s, e)
    ensures FamilyAt(SchedStep(s, e), p)
  {
    MakersSched(s, e, p);
    ParentsSched(s, e, p);
  }

  lemma MakersSched(s: State, e: Event, p: nat)
    requires FamilyFacts(s, e, p) && SchedEnabled(s, e)
    ensures MakingOk(SchedStep(s, e), p) && LookOk(SchedStep(s, e), p)
  {
  }

  lemma ParentsSched(s: State, e: Event, p: nat)
    requires FamilyFacts(s, e, p) && SchedEnabled(s, e)
    ensures ParentOk(SchedStep(s, e), p) && PidOk(SchedStep(s, e), p)
  {
  }

  lemma MakersExit(s: State, e: Event, p: nat)
    requires FamilyFacts(s, e, p) && ExitEnabled(s, e)
    ensures MakingOk(ExitStep(s, e), p) && LookOk(ExitStep(s, e), p)
  {
    ExitFrame(s, e);
    if Making(s.pc[p]).Some? {
      ExitModes(s, e, Making(s.pc[p]).value);
    }
    ExitParents(s, e);
  }

  /** reparent takes no children but those of e.p, and gives them to init. */
  lemma ExitParents(s: State, e: Event)
    requires Whole(s) && e.p < Size(s) && ExitEnabled(s, e)
    ensures var t := ExitStep(s, e);
            forall k :: 0 <= k < |t.parent| ==>
                t.parent[k] == s.parent[k] || (s.parent[k] == Some(e.p) && t.parent[k] == Some(0))
  {
  }

  lemma MakersDie(s: State, e: Event, p: nat)
    requires FamilyFacts(s, e, p) && DieEnabled(s, e)
    ensures MakingOk(DieStep(s, e), p) && LookOk(DieStep(s, e), p)
  {
  }

  lemma ParentsExit(s: State, e: Event, p: nat)
    requires FamilyFacts(s, e, p) && ExitEnabled(s, e)
    ensures ParentOk(ExitStep(s, e), p)
  {
    var t := ExitStep(s, e);
    ExitFrame(s, e);
    ExitModes(s, e, p);
    ExitModes(s, e, 0);
    if s.parent[p].Some? {
      ExitModes(s, e, s.parent[p].value);
      ExitHeir(s, e, p);
    } else {
      ExitParents(s, e);
    }
  }

  /** The slots that reparent has dealt with are not children of e.p. */
  lemma ExitHeir(s: State, e: Event, p: nat)
    requires FamilyFacts(s, e, p) && ExitEnabled(s, e) && s.parent[p].Some?
    ensures var t := ExitStep(s, e);
            && p < |t.parent| && (t.parent[p] == s.parent[p] || t.parent[p] == Some(0))
            && (t.parent[p] == Some(e.p) ==>
                   (t.pc[e.p].Exiting? && t.pc[e.p].k <= p) || (t.pc[e.p].Rousing? && t.pc[e.p].k < p))
  {
  }

  lemma ParentsDie(s: State, e: Event, p: nat)
    requires FamilyFacts(s, e, p) && DieEnabled(s, e)
    ensures ParentOk(DieStep(s, e), p)
  {
  }

  lemma PidsExit(s: State, e: Event, p: nat)
    requires FamilyFacts(s, e, p) && ExitEnabled(s, e)
    ensures PidOk(ExitStep(s, e), p)
  {
  }

  lemma PidsDie(s: State, e: Event, p: nat)
    requires FamilyFacts(s, e, p) && DieEnabled(s, e)
    ensures PidOk(DieStep(s, e), p)
  {
  }

  lemma FamilySleep(s: State, e: Event, p: nat)
    requires FamilyFacts(s, e, p) && SleepEnabled(s, e)
    ensures FamilyAt(SleepStep(s, e), p)
  {
  }

  lemma MakersFork(s: State, e: Event, p: nat)
    requires FamilyFacts(s, e, p) && ForkEnabled(s, e)
    ensures MakingOk(ForkStep(s, e), p)
  {
  }

  lemma LooksFork(s: State, e: Event, p: nat)
    requires FamilyFacts(s, e, p) && ForkEnabled(s, e)
    ensures LookOk(ForkStep(s, e), p)
  {
  }

  lemma ParentsFork(s: State, e: Event, p: nat)
    requires FamilyFacts(s, e, p) && ForkEnabled(s, e)
    ensures ParentOk(ForkStep(s, e), p)
  {
  }

  lemma PidAtFork(s: State, e: Event, p: nat)
    requires FamilyFacts(s, e, p) && ForkEnabled(s, e)
    ensures PidOk(ForkStep(s, e), p)
  {
  }

  lemma MakersWait(s: State, e: Event, p: nat)
    requires FamilyFacts(s, e, p) && WaitEnabled(s, e)
    ensures MakingOk(WaitStep(s, e), p) && LookOk(WaitStep(s, e), p)
  {
    MakingWait(s, e, p);
    LookingWait(s, e, p);
  }

  lemma MakingWait(s: State, e: Event, p: nat)
    requires FamilyFacts(s, e, p) && WaitEnabled(s, e)
    ensures MakingOk(WaitStep(s, e), p)
  {
  }

  lemma LookingWait(s: State, e: Event, p: nat)
    requires FamilyFacts(s, e, p) && WaitEnabled(s, e)
    ensures LookOk(WaitStep(s, e), p)
  {
  }

  lemma ParentsWait(s: State, e: Event, p: nat)
    requires FamilyFacts(s, e, p) && WaitEnabled(s, e)
    ensures ParentOk(WaitStep(s, e), p) && PidOk(WaitStep(s, e), p)
  {
  }

  lemma InitSched(s: State, e: Event)
    requires FamilyFacts(s, e, 0) && SchedEnabled(s, e)
    ensures InitOk(SchedStep(s, e)) && PidsBelow(SchedStep(s, e)) && Whole(SchedStep(s, e))
    ensures Size(SchedStep(s, e)) == Size(s)
  {
  }

  lemma PairSched(s: State, e: Event, p: nat, q: nat)
    requires FamilyFacts(s, e, p) && FamilyFacts(s, e, q) && SchedEnabled(s, e) && PairAt(s, p, q)
    ensures PairAt(SchedStep(s, e), p, q)
  {
    SchedLeaves(s, e, p);
    SchedLeaves(s, e, q);
    PairAlike(s, SchedStep(s, e), p, q);
  }

  lemma SchedLeaves(s: State, e: Event, p: nat)
    requires Whole(s) && p < Size(s) && e.p < Size(s) && SchedEnabled(s, e) && ModesOk(s, p)
    ensures Alike(s, SchedStep(s, e), p)
  {
  }

  lemma InitFork(s: State, e: Event)
    requires FamilyFacts(s, e, 0) && ForkEnabled(s, e)
    ensures InitOk(ForkStep(s, e)) && PidsBelow(ForkStep(s, e)) && Whole(ForkStep(s, e))
    ensures Size(ForkStep(s, e)) == Size(s)
  {
  }

  lemma PairFork(s: State, e: Event, p: nat, q: nat)
    requires FamilyFacts(s, e, p) && FamilyFacts(s, e, q) && ForkEnabled(s, e) && PairAt(s, p, q)
    ensures PairAt(ForkStep(s, e), p, q)
  {
  }

  lemma InitExit(s: State, e: Event)
    requires FamilyFacts(s, e, 0) && ExitEnabled(s, e)
    ensures InitOk(ExitStep(s, e)) && PidsBelow(ExitStep(s, e)) && Whole(ExitStep(s, e))
    ensures Size(ExitStep(s, e)) == Size(s)
  {
  }

  lemma InitDie(s: State, e: Event)
    requires FamilyFacts(s, e, 0) && DieEnabled(s, e)
    ensures InitOk(DieStep(s, e)) && PidsBelow(DieStep(s, e)) && Whole(DieStep(s, e)) && Size(DieStep(s, e)) == Size(s)
  {
  }

  lemma PairExit(s: State, e: Event, p: nat, q: nat)
    requires FamilyFacts(s, e, p) && FamilyFacts(s, e, q) && ExitEnabled(s, e) && PairAt(s, p, q)
    ensures PairAt(ExitStep(s, e), p, q)
  {
    ExitLeaves(s, e, p);
    ExitLeaves(s, e, q);
    PairAlike(s, ExitStep(s, e), p, q);
  }

  lemma ExitLeaves(s: State, e: Event, p: nat)
    requires Whole(s) && p < Size(s) && e.p < Size(s) && ExitEnabled(s, e)
    ensures Alike(s, ExitStep(s, e), p)
  {
  }

  /** Slot p holds the same process, which makes the same one or none. */
  predicate Alike(s: State, t: State, p: nat) {
    && Whole(s) && Whole(t) && p < Size(s) && p < Size(t)
    && t.pid[p] == s.pid[p] && (t.mode[p] == Unused <==> s.mode[p] == Unused)
    && (Making(t.pc[p]).Some? ==> Making(t.pc[p]) == Making(s.pc[p]))
  }

  lemma PairAlike(s: State, t: State, p: nat, q: nat)
    requires PairAt(s, p, q) && Alike(s, t, p) && Alike(s, t, q)
    ensures PairAt(t, p, q)
  {
  }

  lemma PairDie(s: State, e: Event, p: nat, q: nat)
    requires FamilyFacts(s, e, p) && FamilyFacts(s, e, q) && DieEnabled(s, e) && PairAt(s, p, q)
    ensures PairAt(DieStep(s, e), p, q)
  {
  }

  lemma InitSleep(s: State, e: Event)
    requires FamilyFacts(s, e, 0) && SleepEnabled(s, e)
    ensures InitOk(SleepStep(s, e)) && PidsBelow(SleepStep(s, e)) && Whole(SleepStep(s, e))
    ensures Size(SleepStep(s, e)) == Size(s)
  {
  }

  lemma PairSleep(s: State, e: Event, p: nat, q: nat)
    requires FamilyFacts(s, e, p) && FamilyFacts(s, e, q) && SleepEnabled(s, e) && PairAt(s, p, q)
    ensures PairAt(SleepStep(s, e), p, q)
  {
  }

  lemma InitWait(s: State, e: Event)
    requires FamilyFacts(s, e, 0) && WaitEnabled(s, e)
    ensures InitOk(WaitStep(s, e)) && PidsBelow(WaitStep(s, e)) && Whole(WaitStep(s, e))
    ensures Size(WaitStep(s, e)) == Size(s)
  {
  }

  lemma PairWait(s: State, e: Event, p: nat, q: nat)
    requires FamilyFacts(s, e, p) && FamilyFacts(s, e, q) && WaitEnabled(s, e) && PairAt(s, p, q)
    ensures PairAt(WaitStep(s, e), p, q)
  {
  }

  lemma FactsHold(s: State, e: Event, p: nat)
    requires Inv(s) && Enabled(s, e) && p < Size(s)
    ensures LockFacts(s, e, p) && FamilyFacts(s, e, p)
  {
    assert LocksAt(s, p) && LocksAt(s, e.p) && FamilyAt(s, p) && FamilyAt(s, e.p) && PairAt(s, p, e.p);
    assert s.holder[p].Proc? && s.holder[p].q < Size(s) ==> LocksAt(s, s.holder[p].q);
    assert Making(s.pc[p]).Some? ==> FamilyAt(s, Making(s.pc[p]).value);
  }

  lemma LocksKept(s: State, e: Event, p: nat)
    requires Inv(s) && Enabled(s, e) && p < Size(s)
    ensures LocksAt(Step(s, e), p)
  {
    FactsHold(s, e, p);
    if IsSched(e) {
      LocksSched(s, e, p);
    } else if IsFork(e) {
      LocksForkOwn(s, e, p);
      LocksForkWait(s, e, p);
      LocksForkOther(s, e, p);
      LocksForkHolder(s, e, p);
      LocksForkModes(s, e, p);
    } else if IsExit(e) {
      LocksExitOwn(s, e, p);
      LocksExitOther(s, e, p);
      LocksExitHolder(s, e, p);
      LocksExitModes(s, e, p);
    } else if IsDie(e) {
      LocksDieOwn(s, e, p);
      LocksDieOther(s, e, p);
      LocksDieHolder(s, e, p);
      LocksDieModes(s, e, p);
    } else if IsSleep(e) {
      LocksSleepOwn(s, e, p);
      LocksSleepOther(s, e, p);
      LocksSleepHolder(s, e, p);
    } else {
      LocksWaitOwn(s, e, p);
      LocksWaitOther(s, e, p);
      LocksWaitHolder(s, e, p);
      LocksWaitModes(s, e, p);
    }
  }

  lemma FamilyKept(s: State, e: Event, p: nat)
    requires Inv(s) && Enabled(s, e) && p < Size(s)
    ensures FamilyAt(Step(s, e), p)
  {
    FactsHold(s, e, p);
    if IsSched(e) {
      FamilySched(s, e, p);
    } else if IsFork(e) {
      MakersFork(s, e, p);
      LooksFork(s, e, p);
      ParentsFork(s, e, p);
      PidAtFork(s, e, p);
    } else if IsExit(e) {
      MakersExit(s, e, p);
      ParentsExit(s, e, p);
      PidsExit(s, e, p);
    } else if IsDie(e) {
      MakersDie(s, e, p);
      ParentsDie(s, e, p);
      PidsDie(s, e, p);
    } else if IsSleep(e) {
      FamilySleep(s, e, p);
    } else {
      MakersWait(s, e, p);
      ParentsWait(s, e, p);
    }
  }

  lemma InitKept(s: State, e: Event)
    requires Inv(s) && Enabled(s, e)
    ensures InitOk(Step(s, e)) && PidsBelow(Step(s, e)) && Whole(Step(s, e)) && Size(Step(s, e)) == Size(s)
  {
    FactsHold(s, e, 0);
    if IsSched(e) {
      InitSched(s, e);
    } else if IsFork(e) {
      InitFork(s, e);
    } else if IsExit(e) {
      InitExit(s, e);
    } else if IsDie(e) {
      InitDie(s, e);
    } else if IsSleep(e) {
      InitSleep(s, e);
    } else {
      InitWait(s, e);
    }
  }

  lemma PairsKept(s: State, e: Event, p: nat, q: nat)
    requires Inv(s) && Enabled(s, e) && p < Size(s) && q < Size(s)
    ensures PairAt(Step(s, e), p, q)
  {
    FactsHold(s, e, p);
    FactsHold(s, e, q);
    assert PairAt(s, p, q);
    if IsSched(e) {
      PairSched(s, e, p, q);
    } else if IsFork(e) {
      PairFork(s, e, p, q);
    } else if IsExit(e) {
      PairExit(s, e, p, q);
    } else if IsDie(e) {
      PairDie(s, e, p, q);
    } else if IsSleep(e) {
      PairSleep(s, e, p, q);
    } else {
      PairWait(s, e, p, q);
    }
  }

  // ---------- a zombie's parent does not sleep ----------

  predicate AwaitFacts(s: State, e: Event, p: nat, k: nat) {
    && Whole(s) && p < Size(s) && k < Size(s) && e.p < Size(s)
    && LocksAt(s, p) && LocksAt(s, k) && LocksAt(s, e.p) && ParentOk(s, k) && MakingOk(s, e.p) && AwaitAt(s, p, k)
    && (s.wlock.Proc? && s.wlock.q < Size(s) ==> LocksAt(s, s.wlock.q))
  }

  lemma AwaitSched(s: State, e: Event, p: nat, k: nat)
    requires AwaitFacts(s, e, p, k) && SchedEnabled(s, e)
    ensures AwaitAt(SchedStep(s, e), p, k)
  {
    SeenSched(s, e, p, k);
    RousedSched(s, e, p, k);
    ZombieSched(s, e, p, k);
  }

  lemma SeenSched(s: State, e: Event, p: nat, k: nat)
    requires AwaitFacts(s, e, p, k) && SchedEnabled(s, e)
    ensures SeenOk(SchedStep(s, e), p, k)
  {
  }

  lemma RousedSched(s: State, e: Event, p: nat, k: nat)
    requires AwaitFacts(s, e, p, k) && SchedEnabled(s, e)
    ensures RousedOk(SchedStep(s, e), p, k)
  {
  }

  lemma ZombieSched(s: State, e: Event, p: nat, k: nat)
    requires AwaitFacts(s, e, p, k) && SchedEnabled(s, e)
    ensures ZombieOk(SchedStep(s, e), p, k)
  {
  }

  lemma SeenFork(s: State, e: Event, p: nat, k: nat)
    requires AwaitFacts(s, e, p, k) && ForkEnabled(s, e)
    ensures SeenOk(ForkStep(s, e), p, k)
  {
  }

  lemma RousedFork(s: State, e: Event, p: nat, k: nat)
    requires AwaitFacts(s, e, p, k) && ForkEnabled(s, e)
    ensures RousedOk(ForkStep(s, e), p, k)
  {
  }

  lemma ZombieFork(s: State, e: Event, p: nat, k: nat)
    requires AwaitFacts(s, e, p, k) && ForkEnabled(s, e)
    ensures ZombieOk(ForkStep(s, e), p, k)
  {
    var t := ForkStep(s, e);
    if GoingToSleep(t, p) && t.parent[k] == Some(p) && t.mode[k] == Zombie {
      assert GoingToSleep(s, p) && s.parent[k] == Some(p) && s.mode[k] == Zombie;
      assert IsRousing(s, s.wlock) && s.wlock.q != e.p;
    }
  }

  lemma SeenExit(s: State, e: Event, p: nat, k: nat)
    requires AwaitFacts(s, e, p, k) && ExitEnabled(s, e)
    ensures SeenOk(ExitStep(s, e), p, k)
  {
  }

  lemma SeenDie(s: State, e: Event, p: nat, k: nat)
    requires AwaitFacts(s, e, p, k) && DieEnabled(s, e)
    ensures SeenOk(DieStep(s, e), p, k)
  {
  }

  lemma RousedExit(s: State, e: Event, p: nat, k: nat)
    requires AwaitFacts(s, e, p, k) && ExitEnabled(s, e)
    ensures RousedOk(ExitStep(s, e), p, k)
  {
  }

  lemma RousedDie(s: State, e: Event, p: nat, k: nat)
    requires AwaitFacts(s, e, p, k) && DieEnabled(s, e)
    ensures RousedOk(DieStep(s, e), p, k)
  {
  }

  lemma ZombieExit(s: State, e: Event, p: nat, k: nat)
    requires AwaitFacts(s, e, p, k) && ExitEnabled(s, e)
    ensures ZombieOk(ExitStep(s, e), p, k)
  {
    var t := ExitStep(s, e);
    if GoingToSleep(t, p) && t.parent[k] == Some(p) && t.mode[k] == Zombie {
      ExitFrame(s, e);
      ExitModes(s, e, p);
      ExitModes(s, e, k);
      if s.parent[k] == Some(p) {
        StillAwake(s, e, p, k);
        assert false;
      }
    }
  }

  /** While e.p holds wait_lock in kexit, nobody else can be about to wake init up. */
  lemma StillAwake(s: State, e: Event, p: nat, k: nat)
    requires AwaitFacts(s, e, p, k) && ExitEnabled(s, e) && s.parent[k] == Some(p) && s.mode[k] == Zombie
    ensures !GoingToSleep(ExitStep(s, e), p)
  {
  }

  lemma ZombieDie(s: State, e: Event, p: nat, k: nat)
    requires AwaitFacts(s, e, p, k) && DieEnabled(s, e)
    ensures ZombieOk(DieStep(s, e), p, k)
  {
  }

  lemma AwaitSleep(s: State, e: Event, p: nat, k: nat)
    requires AwaitFacts(s, e, p, k) && SleepEnabled(s, e)
    ensures AwaitAt(SleepStep(s, e), p, k)
  {
  }

  lemma AwaitWait(s: State, e: Event, p: nat, k: nat)
    requires AwaitFacts(s, e, p, k) && WaitEnabled(s, e)
    ensures AwaitAt(WaitStep(s, e), p, k)
  {
  }

  lemma AwaitKept(s: State, e: Event, p: nat, k: nat)
    requires Inv(s) && Enabled(s, e) && p < Size(s) && k < Size(s)
    ensures AwaitAt(Step(s, e), p, k)
  {
    assert LocksAt(s, p) && LocksAt(s, k) && LocksAt(s, e.p) && FamilyAt(s, k) && FamilyAt(s, e.p) && AwaitAt(s, p, k);
    assert s.wlock.Proc? && s.wlock.q < Size(s) ==> LocksAt(s, s.wlock.q);
    if IsSched(e) {
      AwaitSched(s, e, p, k);
    } else if IsFork(e) {
      SeenFork(s, e, p, k);
      RousedFork(s, e, p, k);
      ZombieFork(s, e, p, k);
    } else if IsExit(e) {
      SeenExit(s, e, p, k);
      RousedExit(s, e, p, k);
      ZombieExit(s, e, p, k);
    } else if IsDie(e) {
      SeenDie(s, e, p, k);
      RousedDie(s, e, p, k);
      ZombieDie(s, e, p, k);
    } else if IsSleep(e) {
      AwaitSleep(s, e, p, k);
    } else {
      AwaitWait(s, e, p, k);
    }
  }

  // ---------- reports ----------

  predicate ReportFacts(s: State, i: nat, j: nat, p: nat) {
    && ReportGone(s, i, p) && (i < |s.reports| ==> ReportOk(s, i)) && ReportsDiffer(s, i, j)
  }

  /** Steps other than Reap leave the reports alone and give no process an old pid. */
  lemma ReportsOther(s: State, e: Event, i: nat, j: nat, p: nat)
    requires Enabled(s, e) && !e.Reap? && i < |s.reports| && p < Size(s)
    requires ReportFacts(s, i, j, p) && ReportGone(s, i, e.p) && FamilyAt(s, e.p) && LocksAt(s, e.p)
    ensures ReportFacts(Step(s, e), i, j, p)
  {
    ReportsAlone(s, e);
    ReportsOtherGone(s, e, i, p);
    ReportsOtherOk(s, e, i);
  }

  lemma ReportsOtherGone(s: State, e: Event, i: nat, p: nat)
    requires Enabled(s, e) && !e.Reap? && i < |s.reports| && p < Size(s) && ReportOk(s, i) && ReportGone(s, i, p)
    requires Step(s, e).reports == s.reports
    requires FamilyAt(s, e.p) && LocksAt(s, e.p)
    ensures ReportGone(Step(s, e), i, p)
  {
    if IsFork(e) {
      PidsFork(s, e, p);
    } else {
      PidsRest(s, e, p);
    }
  }

  lemma PidsFork(s: State, e: Event, p: nat)
    requires Enabled(s, e) && IsFork(e) && p < Size(s) && FamilyAt(s, e.p)
    ensures var t := ForkStep(s, e);
            p < Size(t) && p < |t.pid| && (t.mode[p] != Unused ==>
                (s.mode[p] != Unused && t.pid[p] == s.pid[p]) || t.pid[p] == s.nextpid)
  {
  }

  lemma PidsRest(s: State, e: Event, p: nat)
    requires Enabled(s, e) && !IsFork(e) && !e.Reap? && p < Size(s) && LocksAt(s, e.p)
    ensures var t := Step(s, e);
            p < Size(t) && p < |t.pid| && (t.mode[p] != Unused ==> s.mode[p] != Unused && t.pid[p] == s.pid[p])
  {
  }

  lemma ReportsOtherOk(s: State, e: Event, i: nat)
    requires Enabled(s, e) && !e.Reap? && i < |s.reports| && ReportOk(s, i) && ReportGone(s, i, e.p)
    requires Step(s, e).reports == s.reports
    requires FamilyAt(s, e.p) && LocksAt(s, e.p)
    ensures ReportOk(Step(s, e), i)
  {
    if e.Die? {
      assert Step(s, e).exits == s.exits[s.pid[e.p] := e.status];
    } else {
      RecordsKept(s, e);
    }
  }

  lemma RecordsKept(s: State, e: Event)
    requires Enabled(s, e) && !e.Die?
    ensures var t := Step(s, e);
            && t.exits == s.exits && t.nextpid >= s.nextpid
            && forall i :: i in s.forker && i < s.nextpid ==> i in t.forker && t.forker[i] == s.forker[i]
  {
    if !IsFork(e) {
      RecordsRest(s, e);
    }
  }

  lemma RecordsRest(s: State, e: Event)
    requires Enabled(s, e) && !e.Die? && !IsFork(e)
    ensures Step(s, e).exits == s.exits && Step(s, e).nextpid == s.nextpid && Step(s, e).forker == s.forker
  {
    if IsSched(e) {
      RecordsSched(s, e);
    } else if IsExit(e) {
      ExitFrame(s, e);
    } else if IsDie(e) {
      RecordsDie(s, e);
    } else if IsSleep(e) {
      RecordsSleep(s, e);
    } else {
      RecordsWait(s, e);
    }
  }

  lemma RecordsSched(s: State, e: Event)
    requires Whole(s) && e.p < Size(s) && SchedEnabled(s, e) && !e.Die?
    ensures var t := SchedStep(s, e);
            t.exits == s.exits && t.nextpid == s.nextpid && t.forker == s.forker
  {
  }

  lemma RecordsDie(s: State, e: Event)
    requires Whole(s) && e.p < Size(s) && DieEnabled(s, e) && !e.Die?
    ensures var t := DieStep(s, e);
            t.exits == s.exits && t.nextpid == s.nextpid && t.forker == s.forker
  {
  }

  lemma RecordsSleep(s: State, e: Event)
    requires Whole(s) && e.p < Size(s) && SleepEnabled(s, e) && !e.Die?
    ensures var t := SleepStep(s, e);
            t.exits == s.exits && t.nextpid == s.nextpid && t.forker == s.forker
  {
  }

  lemma RecordsWait(s: State, e: Event)
    requires Whole(s) && e.p < Size(s) && WaitEnabled(s, e) && !e.Die?
    ensures var t := WaitStep(s, e);
            t.exits == s.exits && t.nextpid == s.nextpid && t.forker == s.forker
  {
  }

  lemma ReportsReap(s: State, e: Event, i: nat, j: nat, p: nat)
    requires Enabled(s, e) && e.Reap? && p < Size(s) && ReportFacts(s, i, j, p) && ReportGone(s, i, s.pc[e.p].k)
    requires FamilyAt(s, e.p) && LocksAt(s, e.p) && FamilyAt(s, s.pc[e.p].k) && PidsDiffer(s, s.pc[e.p].k, p)
    requires PidsBelow(s)
    ensures |Step(s, e).reports| == |s.reports| + 1 && ReportFacts(Step(s, e), i, j, p)
  {
  }

  lemma ReportsKept(s: State, e: Event, i: nat, j: nat, p: nat)
    requires Inv(s) && Enabled(s, e) && i < |Step(s, e).reports| && p < Size(s)
    ensures ReportFacts(Step(s, e), i, j, p)
  {
    FactsHold(s, e, p);
    assert ReportGone(s, i, p) && (i < |s.reports| ==> ReportOk(s, i) && ReportsDiffer(s, i, j));
    if e.Reap? {
      var k := s.pc[e.p].k;
      assert FamilyAt(s, k) && PairAt(s, k, p) && ReportGone(s, i, k);
      ReportsReap(s, e, i, j, p);
    } else {
      ReportsAlone(s, e);
      assert ReportGone(s, i, e.p);
      ReportsOther(s, e, i, j, p);
    }
  }

  lemma ReportsAlone(s: State, e: Event)
    requires Enabled(s, e) && !e.Reap?
    ensures Step(s, e).reports == s.reports
  {
  }

  lemma SlotsKept(s: State, e: Event)
    requires Inv(s) && Enabled(s, e)
    ensures var t := Step(s, e);
            && (forall p {:trigger LocksAt(t, p)} :: 0 <= p < Size(s) ==> LocksAt(t, p))
            && (forall p {:trigger FamilyAt(t, p)} :: 0 <= p < Size(s) ==> FamilyAt(t, p))
            && (forall p, q {:trigger PairAt(t, p, q)} :: 0 <= p < Size(s) && 0 <= q < Size(s) ==> PairAt(t, p, q))
            && (forall p, k {:trigger AwaitAt(t, p, k)} :: 0 <= p < Size(s) && 0 <= k < Size(s) ==> AwaitAt(t, p, k))
  {
    var t := Step(s, e);
    forall p | 0 <= p < Size(s)
      ensures LocksAt(t, p)
    {
      LocksKept(s, e, p);
    }
    forall p | 0 <= p < Size(s)
      ensures FamilyAt(t, p)
    {
      FamilyKept(s, e, p);
    }
    forall p, q | 0 <= p < Size(s) && 0 <= q < Size(s)
      ensures PairAt(t, p, q)
    {
      PairsKept(s, e, p, q);
    }
    forall p, k | 0 <= p < Size(s) && 0 <= k < Size(s)
      ensures AwaitAt(t, p, k)
    {
      AwaitKept(s, e, p, k);
    }
  }

  lemma AllReportsKept(s: State, e: Event)
    requires Inv(s) && Enabled(s, e)
    ensures var t := Step(s, e);
            && (forall i {:trigger ReportOk(t, i)} :: 0 <= i < |t.reports| ==> ReportOk(t, i))
            && (forall i, p {:trigger ReportGone(t, i, p)} :: 0 <= i < |t.reports| && 0 <= p < Size(s) ==>
                   ReportGone(t, i, p))
            && (forall i, j {:trigger ReportsDiffer(t, i, j)} :: 0 <= i < j < |t.reports| ==> ReportsDiffer(t, i, j))
  {
    var t := Step(s, e);
    forall i | 0 <= i < |t.reports|
      ensures ReportOk(t, i)
    {
      ReportsKept(s, e, i, i, 0);
    }
    forall i, p | 0 <= i < |t.reports| && 0 <= p < Size(s)
      ensures ReportGone(t, i, p)
    {
      ReportsKept(s, e, i, i, p);
    }
    forall i, j | 0 <= i < j < |t.reports|
      ensures ReportsDiffer(t, i, j)
    {
      ReportsKept(s, e, i, j, 0);
    }
  }

  lemma StepKeeps(s: State, e: Event)
    requires Inv(s) && Enabled(s, e)
    ensures Inv(Step(s, e))
  {
    InitKept(s, e);
    SlotsKept(s, e);
    AllReportsKept(s, e);
  }

  lemma {:induction false} RunKeeps(s: State, es: seq<Event>, t: State)
    requires Inv(s) && Run(s, es, t)
    ensures Inv(t)
    decreases |es|
  {
    if es != [] {
      StepKeeps(s, es[0]);
      RunKeeps(Step(s, es[0]), es[1..], t);
    }
  }

  // ---------- what every run guarantees ----------

  /** No parent pointer names an exited or an unused slot, so every process has someone to wait for it. */
  lemma ParentsCanWait(n: nat, es: seq<Event>, t: State, k: nat)
    requires n > 0 && Run(Start(n), es, t) && Whole(t) && k < Size(t) && t.parent[k].Some?
    ensures t.parent[k].value < Size(t) && t.mode[t.parent[k].value] != Zombie && t.mode[t.parent[k].value] != Unused
  {
    StartInv(n);
    RunKeeps(Start(n), es, t);
    assert FamilyAt(t, k);
  }

  /** kwait loses no wakeup: nobody sleeps in it while a child is a zombie. Only init does for a moment, when an
      exiting process that holds wait_lock has given it a zombie and is about to wake it up. */
  lemma NobodySleepsOverAZombie(n: nat, es: seq<Event>, t: State, p: nat, k: nat)
    requires n > 0 && Run(Start(n), es, t) && Whole(t) && p < Size(t) && k < Size(t)
    requires t.mode[p] == Sleeping && t.parent[k] == Some(p) && t.mode[k] == Zombie
    ensures p == 0 && IsRousing(t, t.wlock)
  {
    StartInv(n);
    RunKeeps(Start(n), es, t);
    assert AwaitAt(t, p, k) && LocksAt(t, p);
  }

  /** Two kwaits never return the same process; each returns the status that process exited with, to
      the process that made it or to init. */
  lemma ReportedOnce(n: nat, es: seq<Event>, t: State, i: nat, j: nat)
    requires n > 0 && Run(Start(n), es, t) && i < |t.reports|
    ensures i < j < |t.reports| ==> t.reports[i].pid != t.reports[j].pid
    ensures var r := t.reports[i];
            && r.pid in t.exits && r.status == t.exits[r.pid]
            && (r.waiter == 0 || (r.pid in t.forker && t.forker[r.pid] == r.waiterPid))
  {
    StartInv(n);
    RunKeeps(Start(n), es, t);
    assert ReportOk(t, i);
    assert i < j < |t.reports| ==> ReportsDiffer(t, i, j);
  }

  /** freeproc runs only with the lock of the slot held, and never while a CPU is on that process's stack. */
  lemma FreedOffCpu(n: nat, es: seq<Event>, t: State, e: Event)
    requires n > 0 && Run(Start(n), es, t) && Enabled(t, e) && (e.Reap? || e.Abandon?)
    ensures var k := if e.Reap? then t.pc[e.p].k else t.pc[e.p].c;
            k < Size(t) && t.holder[k] == Proc(e.p) && t.cpu[k] == Off && k != e.p
  {
    StartInv(n);
    RunKeeps(Start(n), es, t);
    OffCpu(t, e);
  }

  lemma OffCpu(t: State, e: Event)
    requires Inv(t) && Enabled(t, e) && (e.Reap? || e.Abandon?)
    ensures var k := if e.Reap? then t.pc[e.p].k else t.pc[e.p].c;
            k < Size(t) && t.holder[k] == Proc(e.p) && t.cpu[k] == Off && k != e.p
  {
    assert LocksAt(t, e.p) && FamilyAt(t, e.p);
    var k := if e.Reap? then t.pc[e.p].k else t.pc[e.p].c;
    assert LocksAt(t, k);
  }
}
