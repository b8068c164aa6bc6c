/** What every run of the kernel keeps. */
module KernelRuns {
  import opened KernelState
  import opened KernelQueues
  import opened KernelInvariant
  import opened KernelSteps
  import opened KernelTick

  // ----- one step -----

  /** The processes a step adds to the system and takes from it. */
  function Added(s: System, op: Op): multiset<int> {
    if op.Activate? && s.count < MAXPROCS then multiset{FirstFree(s.procs)} else multiset{}
  }

  function Removed(s: System, op: Op): multiset<int> {
    if op.Terminate? then multiset{s.running} else multiset{}
  }

  /** A step keeps the invariant exactly when it was permitted, and then only moves processes around, except for the one
      that activation adds or termination removes. */
  lemma StepKeepsExactly(s: System, op: Op)
    requires KInv(s) && CanStep(s, op)
    ensures Step(s, op).Halted? <==> op.Terminate? && s.ready == []
    ensures Step(s, op).Alive? ==> (KInv(Step(s, op).s) <==> Permitted(s, op))
    ensures Step(s, op).Alive? && Permitted(s, op) ==> Occ(Step(s, op).s) + Removed(s, op) == Occ(s) + Added(s, op)
  {
    hide KInv, Occ, LastFree, FirstFree, DoTick, DoWait, DoSignal, DoDelay, DoActivate, DoSemIni;
    assert Sized(s) && s.count == Busy(s.procs) by { Parts(s); }
    match op
    case Go => if s.running == NONE { GoKeeps(s); }
    case Activate(prec) =>
      ActivateKeeps(s, prec);
      if s.count >= MAXPROCS { ActivateFull(s, prec); }
    case Terminate => if s.ready != [] { TerminateKeeps(s); }
    case SemIni(v) => SemIniKeeps(s, v);
    case Wait(h) => WaitKeeps(s, h);
    case Signal(h) => SignalKeeps(s, h);
    case Delay(n) => DelayKeeps(s, n);
    case Tick => TickKeeps(s);
  }

  lemma Parts(s: System)
    requires KInv(s)
    ensures Sized(s) && s.count == Busy(s.procs)
  {
  }

  /** Activation finds a free slot exactly when proc_count is below MAXPROCS. */
  lemma ActivateFull(s: System, prec: int)
    requires KInv(s)
    ensures s.count <= MAXPROCS && (s.count == MAXPROCS <==> FirstFree(s.procs) == MAXPROCS)
    ensures s.count == MAXPROCS ==> DoActivate(s, prec) == s
  {
    BusyBound(s.procs);
  }

  // ----- runs -----

  function Run(s: System, ops: seq<Op>): Outcome
    decreases ops
  {
    if ops == [] then Alive(s)
    else if !CanStep(s, ops[0]) then Halted
    else match Step(s, ops[0])
      case Halted => Halted
      case Alive(s') => Run(s', ops[1..])
  }

  /** What user code must respect: it runs only after kernel_go, semaphores are initialised with a value >= 0 before
      they are used, and a delay is at least one tick long.  The idle process, in slot 0, never blocks or activates and
      ends only when it is the last process. */
  predicate Allowed(s: System, op: Op) {
    match op
    case Go => s.running == NONE
    case Activate(prec) => s.running != 0
    case Terminate => s.running != NONE && (s.running == 0 ==> s.count == 1)
    case SemIni(v) => 0 <= v && s.running != 0
    case Wait(h) => s.running != NONE && s.running != 0 && (0 <= h < |s.sems| ==> s.sems[h].busy)
    case Signal(h) => s.running != NONE && s.running != 0 && (0 <= h < |s.sems| ==> s.sems[h].busy)
    case Delay(n) => s.running != NONE && s.running != 0 && 50 <= n
    case Tick => s.running != NONE
  }

  predicate Disciplined(s: System, ops: seq<Op>)
    decreases ops
  {
    ops == [] ||
    (CanStep(s, ops[0]) && Allowed(s, ops[0]) &&
     match Step(s, ops[0])
     case Halted => true
     case Alive(s') => Disciplined(s', ops[1..]))
  }

  /** The invariant of disciplined runs: the idle process is alive and waits for nothing, and semaphores that are not
      initialised have no queue. */
  ghost predicate Good(s: System) {
    KInv(s) && InUse(s.procs, 0) && IdleFree(s)
  }

  lemma BootGood()
    ensures Good(Boot()) && Boot().running == NONE && Boot().ready == [0] && Boot().procs[0].prec == 3000
  {
    var b := Blank();
    BlankOk(b.procs, b.sems);
    assert KInv(b);
    ActivateKeeps(b, 3000);
    assert Boot().sems == b.sems && Boot().timer == [];
  }

  lemma {:induction false} BlankOk(procs: seq<Proc>, sems: seq<Sem>)
    requires forall i | 0 <= i < |procs| :: procs[i].stato == FREE
    requires forall i | 0 <= i < |sems| :: sems[i].queue == []
    ensures Busy(procs) == 0 && SemOcc(sems) == multiset{} && (procs != [] ==> FirstFree(procs) == 0)
    decreases |procs| + |sems|
  {
    if procs != [] {
      BlankOk(procs[1..], sems);
    } else if sems != [] {
      BlankOk(procs, sems[1..]);
    }
  }

  /** While the idle process is not running it is ready. */
  lemma IdleReady(s: System)
    requires Good(s)
    ensures s.running == 0 || 0 in s.ready
  {
    hide SemOcc, TimerProcs;
    assert Occ(s)[0] == 1;
    assert multiset(TimerProcs(s.timer))[0] == 0;
  }

  /** In a disciplined run every step is permitted: a process that blocks always leaves somebody ready. */
  lemma AllowedIsPermitted(s: System, op: Op)
    requires Good(s) && CanStep(s, op) && Allowed(s, op)
    ensures Permitted(s, op)
  {
    hide KInv, SemOcc, TimerProcs;
    IdleReady(s);
  }

  lemma {:induction false} BusyTwo(procs: seq<Proc>, p: int, q: int)
    requires InUse(procs, p) && InUse(procs, q) && p < q
    ensures Busy(procs) >= 2
  {
    if p > 0 {
      BusyTwo(procs[1..], p - 1, q - 1);
    } else {
      BusyUpdate(procs, q, procs[q].(stato := FREE));
      BusyOne(procs[q := procs[q].(stato := FREE)], 0);
    }
  }

  lemma BusyOne(procs: seq<Proc>, p: int)
    requires InUse(procs, p)
    ensures Busy(procs) >= 1
  {
    BusyUpdate(procs, p, procs[p].(stato := FREE));
    BusyBound(procs[p := procs[p].(stato := FREE)]);
  }

  /** When the idle process ends as the last one, the kernel halts. */
  lemma LastEnds(s: System)
    requires Good(s) && s.running == 0 && s.count == 1
    ensures s.ready == []
  {
    hide SemOcc, TimerProcs;
    if s.ready != [] {
      ReadyHead(s);
      BusyTwo(s.procs, 0, s.ready[0]);
    }
  }

  /** Semaphores and timer never hold the idle process, and semaphores that are not initialised hold nobody. */
  ghost predicate IdleFree(s: System) {
    && 0 !in SemOcc(s.sems) && 0 !in TimerProcs(s.timer)
    && forall h | 0 <= h < |s.sems| && !s.sems[h].busy :: s.sems[h].queue == []
  }

  lemma IdleFreeSems(s: System, s': System, h: int, m: Sem)
    requires IdleFree(s) && 0 <= h < |s.sems| && s'.sems == s.sems[h := m] && s'.timer == s.timer
    requires 0 !in m.queue && m.busy
    ensures IdleFree(s')
  {
    hide SemOcc, TimerProcs;
    SemOccAvoids(s.sems, h, m, 0);
  }

  /** No step but a wait or delay of the running process adds to the semaphore and timer queues. */
  lemma QueuesOfStep(s: System, op: Op)
    requires Sized(s) && IdleFree(s) && CanStep(s, op) && Allowed(s, op) && Step(s, op).Alive?
    ensures IdleFree(Step(s, op).s)
  {
    hide SemOcc, TimerProcs, IdleFree, DoTick, DoSignal, DoWait, DoDelay, DoSemIni;
    match op
    case SemIni(v) => QueuesOfSemIni(s, v);
    case Wait(h) => QueuesOfWait(s, h);
    case Signal(h) => QueuesOfSignal(s, h);
    case Delay(n) => QueuesOfDelay(s, n);
    case Tick => QueuesOfTick(s);
    case _ => QueuesUnchanged(s, Step(s, op).s);
  }

  lemma QueuesUnchanged(s: System, s': System)
    requires IdleFree(s) && s'.sems == s.sems && s'.timer == s.timer
    ensures IdleFree(s')
  {
  }

  lemma QueuesOfSemIni(s: System, v: int)
    requires IdleFree(s)
    ensures IdleFree(DoSemIni(s, v))
  {
    hide SemOcc, TimerProcs;
    if LastFree(s.sems) >= 0 { IdleFreeSems(s, DoSemIni(s, v), LastFree(s.sems), Sem([], v, true)); }
  }

  lemma QueuesOfWait(s: System, h: int)
    requires IdleFree(s) && s.running != 0 && (0 <= h < |s.sems| ==> s.sems[h].busy)
    ensures IdleFree(DoWait(s, h))
  {
    hide SemOcc, TimerProcs, Insert;
    if 0 <= h < |s.sems| {
      var m := DoWait(s, h).sems[h];
      InsertMembers(s.procs, s.sems[h].queue, s.running);
      SemOccHas(s.sems, h, 0);
      assert 0 !in multiset(s.sems[h].queue) && 0 !in multiset(m.queue);
      IdleFreeSems(s, DoWait(s, h), h, m);
    }
  }

  lemma QueuesOfSignal(s: System, h: int)
    requires IdleFree(s) && (0 <= h < |s.sems| ==> s.sems[h].busy)
    ensures IdleFree(DoSignal(s, h))
  {
    hide SemOcc, TimerProcs, Insert;
    if 0 <= h < |s.sems| {
      SemOccHas(s.sems, h, 0);
      assert 0 !in multiset(s.sems[h].queue) && 0 !in s.sems[h].queue;
      IdleFreeSems(s, DoSignal(s, h), h, DoSignal(s, h).sems[h]);
    }
  }

  lemma QueuesOfDelay(s: System, n: int)
    requires IdleFree(s) && s.running != 0
    ensures IdleFree(DoDelay(s, n))
  {
    hide SemOcc, TimerProcs, InsertTimer;
    InsertTimerMembers(s.timer, Request(s.running, Ticks(n)));
    assert 0 !in multiset(TimerProcs(s.timer));
    assert 0 !in multiset(TimerProcs(DoDelay(s, n).timer));
  }

  lemma QueuesOfTick(s: System)
    requires Slot(s.running) && Sized(s) && IdleFree(s)
    ensures IdleFree(DoTick(s))
  {
    hide TimerProcs, SemOcc, InsertAll, Insert, Due, NotDue, Decremented, Reschedule;
    DueMembers(s.timer);
    DueMembers(Decremented(s.timer));
    assert 0 !in multiset(TimerProcs(s.timer));
    assert 0 !in multiset(TimerProcs(NotDue(Decremented(s.timer))));
    TickQueues(s);
  }

  lemma TickQueues(s: System)
    requires 0 <= s.running < |s.procs|
    ensures DoTick(s).sems == s.sems && DoTick(s).timer == NotDue(Decremented(s.timer))
  {
    hide InsertAll, Insert, Due, NotDue, Decremented, SetStato;
  }

  lemma GoodStep(s: System, op: Op)
    requires Good(s) && CanStep(s, op) && Allowed(s, op)
    ensures Step(s, op).Alive? ==> Good(Step(s, op).s)
    ensures Step(s, op).Halted? ==> s.running == 0 && s.count == 1
  {
    hide KInv, Occ, IdleFree, Step;
    Parts(s);
    AllowedIsPermitted(s, op);
    StepKeepsExactly(s, op);
    IdleReady(s);
    if op.Terminate? && s.running == 0 { LastEnds(s); }
    if Step(s, op).Alive? {
      QueuesOfStep(s, op);
      IdleStays(s, Step(s, op).s, Removed(s, op), Added(s, op));
    }
  }

  lemma IdleStays(s: System, s': System, removed: multiset<int>, added: multiset<int>)
    requires KInv(s) && KInv(s') && InUse(s.procs, 0) && 0 !in removed && Occ(s') + removed == Occ(s) + added
    ensures InUse(s'.procs, 0)
  {
    hide Occ;
    assert Occ(s)[0] == 1;
    assert (Occ(s') + removed)[0] >= 1;
    assert Occ(s')[0] >= 1;
    Member(s', 0);
  }
}
