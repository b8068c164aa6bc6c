/** Theorems over whole runs of the kernel. */
module KernelTheorems {
  import opened Arithmetic
  import opened KernelState
  import opened KernelQueues
  import opened KernelInvariant
  import opened KernelSteps
  import opened KernelTick
  import opened KernelRuns

  // ----- safety of every disciplined run -----

  lemma {:induction false} GoodRun(s: System, ops: seq<Op>)
    requires Good(s) && Disciplined(s, ops)
    ensures Run(s, ops).Alive? ==> Good(Run(s, ops).s)
    decreases ops
  {
    hide Good, Step, Allowed, CanStep;
    if ops != [] {
      GoodStep(s, ops[0]);
      if Step(s, ops[0]).Alive? { GoodRun(Step(s, ops[0]).s, ops[1..]); }
    }
  }

  /** From kernel_init on, whatever disciplined user code does: every process in use is in exactly one place, the
      queues are sorted, the semaphore counts agree with their queues, proc_count is right, and a process that is
      running leaves the idle process ready behind it. */
  lemma EveryDisciplinedRun(ops: seq<Op>)
    requires Disciplined(Boot(), ops) && Run(Boot(), ops).Alive?
    ensures var s := Run(Boot(), ops).s;
            KInv(s) && InUse(s.procs, 0) && (s.running == 0 || 0 in s.ready) && 1 <= s.count <= MAXPROCS
  {
    hide KInv, IdleFree, Run, Disciplined;
    BootGood();
    GoodRun(Boot(), ops);
    var s := Run(Boot(), ops).s;
    IdleReady(s);
    Parts(s);
    BusyOne(s.procs, 0);
    BusyBound(s.procs);
  }

  // ----- runs of permitted steps -----

  predicate Sound(s: System, ops: seq<Op>)
    decreases ops
  {
    ops == [] ||
    (CanStep(s, ops[0]) && Permitted(s, ops[0]) && Step(s, ops[0]).Alive? && Sound(Step(s, ops[0]).s, ops[1..]))
  }

  lemma {:induction false} SoundRun(s: System, ops: seq<Op>)
    requires KInv(s) && Sound(s, ops)
    ensures Run(s, ops).Alive? && KInv(Run(s, ops).s)
    decreases ops
  {
    hide KInv, Step, Permitted, CanStep;
    if ops != [] {
      StepKeepsExactly(s, ops[0]);
      SoundRun(Step(s, ops[0]).s, ops[1..]);
    }
  }

  function Count(ops: seq<Op>, op: Op): nat {
    if ops == [] then 0 else (if ops[0] == op then 1 else 0) + Count(ops[1..], op)
  }

  // ----- semaphores -----

  lemma StepCount(s: System, op: Op, h: int)
    requires Sized(s) && SemsOk(s.sems) && CanStep(s, op) && Step(s, op).Alive? && Slot(h) && s.sems[h].busy
    ensures var s' := Step(s, op).s;
            |s'.sems| == |s.sems| && s'.sems[h].busy
            && s'.sems[h].count
               == s.sems[h].count + (if op == Signal(h) then 1 else 0) - (if op == Wait(h) then 1 else 0)
  {
    hide SemsOk, DoTick, Insert, Schedule, DoActivate;
    match op
    case Tick => TickQueues(s);
    case Wait(k) => if 0 <= k < |s.sems| { ScheduleFrame(Enqueued(s, k)); }
    case Go => ScheduleFrame(s);
    case Delay(n) => ScheduleFrame(s.(timer := InsertTimer(s.timer, Request(s.running, Ticks(n)))));
    case Terminate => TerminateSems(s);
    case Activate(p) => ActivateSems(s, p);
    case _ =>
  }

  lemma ActivateSems(s: System, prec: int)
    ensures DoActivate(s, prec).sems == s.sems && DoActivate(s, prec).timer == s.timer
  {
  }

  lemma TerminateSems(s: System)
    requires 0 <= s.running < |s.procs|
    ensures DoTerminate(s).Alive? ==> DoTerminate(s).s.sems == s.sems && DoTerminate(s).s.timer == s.timer
  {
  }

  lemma {:induction false} RunCount(s: System, ops: seq<Op>, h: int)
    requires KInv(s) && Sound(s, ops) && Slot(h) && s.sems[h].busy
    ensures var s' := Run(s, ops);
            s'.Alive? && |s'.s.sems| == MAXSEMS && s'.s.sems[h].busy
            && s'.s.sems[h].count == s.sems[h].count + Count(ops, Signal(h)) - Count(ops, Wait(h))
    decreases ops
  {
    if ops != [] {
      var op := ops[0];
      StepKeepsExactly(s, op);
      assert Sized(s) && SemsOk(s.sems);
      hide KInv, Step, Permitted, CanStep, Sized, SemsOk;
      StepCount(s, op, h);
      RunCount(Step(s, op).s, ops[1..], h);
    }
  }

  /** A semaphore initialised with v lets exactly min(waits, v + signals) waits complete; the others are queued. */
  lemma SemaphoreAccounting(s: System, ops: seq<Op>, h: int)
    requires KInv(s) && Sound(s, ops) && Slot(h) && s.sems[h].busy && s.sems[h].count >= 0
    ensures Run(s, ops).Alive? && |Run(s, ops).s.sems| == MAXSEMS
    ensures var m := Run(s, ops).s.sems[h];
            var waits, supply := Count(ops, Wait(h)), s.sems[h].count + Count(ops, Signal(h));
            waits - |m.queue| == if waits <= supply then waits else supply
  {
    RunCount(s, ops, h);
    SoundRun(s, ops);
    assert SemOk(Run(s, ops).s.sems[h]);
  }

  // ----- delays -----

  /** The kernel's delta queue refines a table of wake-up times: a delay sets the caller's, a tick brings all nearer and
      removes those that are due, and no other step matters. */
  lemma StepWakes(s: System, op: Op)
    requires KInv(s) && CanStep(s, op) && Step(s, op).Alive?
    ensures var w, w' := Wakes(s.timer, 0), Wakes(Step(s, op).s.timer, 0);
            w' == match op
                  case Delay(n) => w[s.running := Ticks(n)]
                  case Tick => Later(w, 1)
                  case _ => w
  {
    assert PlacesOk(s) && Sized(s) && TimerOk(s.timer);
    hide KInv, DoTick, Insert, Schedule, DoActivate, Wakes, InsertTimer, PlacesOk, Sized, TimerOk;
    match op
    case Tick => TickWakes(s);
    case Wait(k) => if 0 <= k < |s.sems| { ScheduleFrame(Enqueued(s, k)); }
    case Go => ScheduleFrame(s);
    case Delay(n) => DelayWakes(s, n);
    case Terminate => TerminateSems(s);
    case Activate(p) => ActivateSems(s, p);
    case _ =>
  }

  lemma TickWakes(s: System)
    requires PlacesOk(s) && TimerOk(s.timer) && Slot(s.running)
    ensures Wakes(DoTick(s).timer, 0) == Later(Wakes(s.timer, 0), 1)
  {
    hide DoTick, Wakes;
    TickQueues(s);
    TimerDistinct(s);
    TickRefines(s.timer);
  }

  lemma DelayWakes(s: System, n: int)
    requires PlacesOk(s) && Slot(s.running)
    ensures Wakes(DoDelay(s, n).timer, 0) == Wakes(s.timer, 0)[s.running := Ticks(n)]
  {
    hide SemOcc, TimerProcs, Wakes, InsertTimer;
    assert multiset(TimerProcs(s.timer))[s.running] + 1 <= Occ(s)[s.running] <= 1;
    InsertTimerRefines(s.timer, Request(s.running, Ticks(n)), 0);
    ScheduleFrame(s.(timer := InsertTimer(s.timer, Request(s.running, Ticks(n)))));
  }

  /** A sleeping process sleeps on while fewer ticks have passed than it asked for. */
  lemma {:induction false} SleepsUntilDue(s: System, ops: seq<Op>, p: int)
    requires KInv(s) && Sound(s, ops) && p in Wakes(s.timer, 0) && Count(ops, Tick) < Wakes(s.timer, 0)[p]
    ensures Run(s, ops).Alive?
    ensures var w' := Wakes(Run(s, ops).s.timer, 0); p in w' && w'[p] == Wakes(s.timer, 0)[p] - Count(ops, Tick)
    decreases ops
  {
    if ops != [] {
      var op := ops[0];
      StepKeepsExactly(s, op);
      StepWakes(s, op);
      if op.Delay? { RunningAwake(s, p); }
      hide KInv, Step, Permitted, CanStep;
      SleepsUntilDue(Step(s, op).s, ops[1..], p);
    }
  }

  lemma RunningAwake(s: System, p: int)
    requires PlacesOk(s) && p in Wakes(s.timer, 0) && Slot(s.running)
    ensures p != s.running
  {
    hide SemOcc;
    WakesKeys(s.timer, 0);
    assert multiset(TimerProcs(s.timer))[p] >= 1;
    assert Occ(s)[p] <= 1;
  }

  /** A delay of k >= 1 ticks, followed by any run, releases the process on exactly the k-th tick. */
  lemma WakesOnTheKthTick(s: System, n: int, ops: seq<Op>)
    requires KInv(s) && Slot(s.running) && 50 <= n && s.ready != []
    requires Sound(DoDelay(s, n), ops) && Count(ops, Tick) < n / 50
    ensures var s' := Run(DoDelay(s, n), ops);
            && s'.Alive? && s.running in TimerProcs(s'.s.timer)
            && (0 <= s'.s.running < |s'.s.procs| ==>
                  (s.running in Due(Decremented(s'.s.timer)) <==> Count(ops, Tick) + 1 == n / 50)
                  && (s.running in TimerProcs(DoTick(s'.s).timer) <==> Count(ops, Tick) + 1 < n / 50))
  {
    var s1 := DoDelay(s, n);
    DelayKeeps(s, n);
    DelayWakes(s, n);
    hide KInv, DoDelay, DoTick, Wakes, Later;
    SleepsUntilDue(s1, ops, s.running);
    SoundRun(s1, ops);
    Parts(Run(s1, ops).s);
    WakesKeys(Run(s1, ops).s.timer, 0);
    if 0 <= Run(s1, ops).s.running < |Run(s1, ops).s.procs| { NextTick(Run(s1, ops).s, s.running); }
  }

  lemma NextTick(s: System, p: int)
    requires KInv(s) && Slot(s.running) && p in Wakes(s.timer, 0)
    ensures p in Due(Decremented(s.timer)) <==> Wakes(s.timer, 0)[p] == 1
    ensures p in TimerProcs(DoTick(s).timer) <==> Wakes(s.timer, 0)[p] > 1
  {
    hide DoTick, Wakes, SemOcc;
    TimerDistinct(s);
    TickRefines(s.timer);
    TickWakes(s);
    WakesKeys(DoTick(s).timer, 0);
  }

  // ----- delays of less than one tick -----

  /** The head of the queue has nothing left to wait: the tick only makes it more negative. */
  predicate Stuck(t: seq<Request>) {
    t != [] && t[0].dattesa <= 0
  }

  /** A delay below 50 puts such a request at the head. */
  lemma ShortDelayJams(s: System, n: int)
    requires TimerOk(s.timer) && n < 50
    ensures Stuck(DoDelay(s, n).timer)
    ensures multiset(TimerProcs(DoDelay(s, n).timer)) == multiset(TimerProcs(s.timer)) + multiset{s.running}
  {
    hide TimerProcs;
    InsertTimerMembers(s.timer, Request(s.running, Ticks(n)));
    ScheduleTimer(s.(timer := InsertTimer(s.timer, Request(s.running, Ticks(n)))));
    hide Schedule;
  }

  lemma ScheduleTimer(s: System)
    ensures Schedule(s).timer == s.timer
  {
  }

  lemma StuckTick(t: seq<Request>)
    requires Stuck(t)
    ensures Stuck(NotDue(Decremented(t))) && Due(Decremented(t)) == []
    ensures TimerProcs(NotDue(Decremented(t))) == TimerProcs(t)
  {
    DueMembers(t);
  }

  lemma StuckInsert(t: seq<Request>, r: Request)
    requires Stuck(t)
    ensures Stuck(InsertTimer(t, r)) && multiset(TimerProcs(t)) <= multiset(TimerProcs(InsertTimer(t, r)))
  {
    InsertTimerMembers(t, r);
  }

  /** No step but a delay or a tick touches the timer queue. */
  lemma TimerUntouched(s: System, op: Op)
    requires CanStep(s, op) && Step(s, op).Alive? && !op.Delay? && !op.Tick?
    ensures Step(s, op).s.timer == s.timer
  {
    hide Schedule, Insert, DoActivate, DoTick, DoDelay, FirstFree, LastFree;
    match op
    case Go => ScheduleTimer(s);
    case Wait(h) => if 0 <= h < |s.sems| { ScheduleTimer(Enqueued(s, h)); }
    case Terminate => TerminateSems(s);
    case Activate(p) => ActivateSems(s, p);
    case _ =>
  }

  /** Whatever step is made, a stuck queue stays stuck and loses nobody. */
  lemma StuckStays(s: System, op: Op)
    requires CanStep(s, op) && Step(s, op).Alive? && Stuck(s.timer)
    ensures Stuck(Step(s, op).s.timer)
    ensures multiset(TimerProcs(s.timer)) <= multiset(TimerProcs(Step(s, op).s.timer))
  {
    hide TimerProcs, Schedule, InsertTimer, DoTick, Due, NotDue, Decremented, Stuck;
    match op
    case Delay(n) =>
      StuckInsert(s.timer, Request(s.running, Ticks(n)));
      ScheduleTimer(s.(timer := InsertTimer(s.timer, Request(s.running, Ticks(n)))));
    case Tick =>
      StuckTick(s.timer);
      TickQueues(s);
    case _ => TimerUntouched(s, op);
  }

  lemma {:induction false} StuckRun(s: System, ops: seq<Op>)
    requires Stuck(s.timer) && Run(s, ops).Alive?
    ensures Stuck(Run(s, ops).s.timer)
    ensures multiset(TimerProcs(s.timer)) <= multiset(TimerProcs(Run(s, ops).s.timer))
    decreases ops
  {
    hide Step, CanStep, Stuck, TimerProcs;
    if ops != [] {
      StuckStays(s, ops[0]);
      StuckRun(Step(s, ops[0]).s, ops[1..]);
    }
  }

  /** After one delay below 50, whatever else runs, nobody who was asleep or fell asleep is ever released: the caller
      and every process in the timer queue stay there, and no tick finds anybody due. */
  lemma ShortDelayIsNeverReleased(s: System, n: int, ops: seq<Op>)
    requires TimerOk(s.timer) && n < 50 && Run(DoDelay(s, n), ops).Alive?
    ensures var t := Run(DoDelay(s, n), ops).s.timer;
            && s.running in TimerProcs(t) && (forall p | p in TimerProcs(s.timer) :: p in TimerProcs(t))
            && Stuck(t) && Due(Decremented(t)) == []
  {
    hide Stuck, TimerProcs, DoDelay, Run, Due, Decremented;
    ShortDelayJams(s, n);
    StuckRun(DoDelay(s, n), ops);
    var t := Run(DoDelay(s, n), ops).s.timer;
    StuckTick(t);
    forall p | p in TimerProcs(s.timer) || p == s.running ensures p in TimerProcs(t) {
      assert p in multiset(TimerProcs(s.timer)) + multiset{s.running};
      assert p in multiset(TimerProcs(t));
    }
  }

  function TickRun(k: nat): (ops: seq<Op>)
    ensures |ops| == k && Count(ops, Op.Tick) == k
  {
    if k == 0 then [] else [Op.Tick] + TickRun(k - 1)
  }

  /** A tick leaves some process running. */
  lemma TickRunning(s: System)
    requires KInv(s) && Slot(s.running)
    ensures Slot(DoTick(s).running)
  {
    ExpireKeeps(s);
    BumpKeeps(Expire(s));
    PreemptRunning(Bump(Expire(s)));
  }

  lemma {:induction false} TicksAreSound(s: System, k: nat)
    requires KInv(s) && Slot(s.running)
    ensures Sound(s, TickRun(k)) && Run(s, TickRun(k)).Alive? && Slot(Run(s, TickRun(k)).s.running)
    decreases k
  {
    hide KInv, DoTick;
    assert |s.procs| == MAXPROCS by { Parts(s); }
    if k > 0 {
      TickKeeps(s);
      TickRunning(s);
      assert TickRun(k)[1..] == TickRun(k - 1);
      TicksAreSound(DoTick(s), k - 1);
    }
  }

  lemma {:induction false} RunSnoc(s: System, ops: seq<Op>, op: Op)
    requires Run(s, ops).Alive? && CanStep(Run(s, ops).s, op)
    ensures Run(s, ops + [op]) == Step(Run(s, ops).s, op)
    decreases ops
  {
    hide Step, CanStep;
    if ops == [] {
      assert ops + [op] == [op] && [op][1..] == [];
    } else {
      assert (ops + [op])[1..] == ops[1..] + [op];
      RunSnoc(Step(s, ops[0]).s, ops[1..], op);
    }
  }

  /** A delay that ends: some run gets the caller out of the timer queue. */
  ghost predicate Ends(s: System, n: int) {
    exists ops :: WokenBy(s, n, ops)
  }

  predicate WokenBy(s: System, n: int, ops: seq<Op>) {
    Run(DoDelay(s, n), ops).Alive? && s.running !in TimerProcs(Run(DoDelay(s, n), ops).s.timer)
  }

  /** Ticks alone end a delay of at least 50. */
  lemma LongDelayEnds(s: System, n: int)
    requires KInv(s) && Slot(s.running) && s.ready != [] && 50 <= n
    ensures WokenBy(s, n, TickRun(n / 50 - 1) + [Op.Tick])
  {
    hide KInv, Run, DoDelay, DoTick, TimerProcs, Sound, TickRun, Due, Decremented;
    var s1, ops := DoDelay(s, n), TickRun(n / 50 - 1);
    DelayKeeps(s, n);
    DelayRunning(s, n);
    TicksAreSound(s1, n / 50 - 1);
    WakesOnTheKthTick(s, n, ops);
    SoundRun(s1, ops);
    Parts(Run(s1, ops).s);
    RunSnoc(s1, ops, Op.Tick);
  }

  /** A delay ends exactly when it is at least 50. */
  lemma DelayEndsExactly(s: System, n: int)
    requires KInv(s) && Slot(s.running) && s.ready != []
    ensures Ends(s, n) <==> 50 <= n
  {
    assert TimerOk(s.timer);
    if 50 <= n {
      LongDelayEnds(s, n);
    } else {
      hide KInv, Run, DoDelay, TimerProcs, TimerOk, Stuck;
      forall ops ensures !WokenBy(s, n, ops) {
        if Run(DoDelay(s, n), ops).Alive? { ShortDelayIsNeverReleased(s, n, ops); }
      }
    }
  }

  lemma DelayRunning(s: System, n: int)
    requires KInv(s) && s.ready != []
    ensures Slot(DoDelay(s, n).running)
  {
    ReadyHead(s);
    hide InsertTimer;
  }

  // ----- priorities -----

  /** The scheduler picks a best process, the first of those in the ready queue. */
  lemma SchedulePicksBest(s: System)
    requires Sized(s) && SortedOk(s) && s.ready != [] && Slot(s.ready[0])
    ensures forall p | p in s.ready :: Prec(s.procs, Schedule(s).running) <= Prec(s.procs, p)
    ensures var v := Prec(s.procs, Schedule(s).running); Class(s.procs, s.ready, v)[..1] == [Schedule(s).running]
  {
    forall p | p in s.ready ensures Prec(s.procs, s.ready[0]) <= Prec(s.procs, p) {
      var i :| 0 <= i < |s.ready| && s.ready[i] == p;
      if i > 0 { assert Prec(s.procs, s.ready[0]) <= Prec(s.procs, s.ready[i]); }
    }
  }

  /** reschedule is a stable sort of the ready processes by baseprec + tickTotal / 10; the others are left alone. */
  lemma RescheduleIsStableSort(s: System, v: int)
    requires Sized(s) && forall p | p in s.ready :: Slot(p)
    ensures var s' := Reschedule(s);
            && multiset(s'.ready) == multiset(s.ready) && Sorted(s'.procs, s'.ready)
            && Class(s'.procs, s'.ready, v) == Class(s'.procs, s.ready, v)
            && (forall p | p in s.ready && Slot(p) ::
                  s'.procs[p].prec == s.procs[p].baseprec + Quotient(s.procs[p].tickTotal, 10))
            && (forall p | Slot(p) && p !in s.ready :: s'.procs[p] == s.procs[p])
  {
    InsertAllMembers(Reschedule(s).procs, [], s.ready);
    InsertAllSorts(Reschedule(s).procs, [], s.ready, v);
  }
}
