/** What runs of the kernel add up to: semaphore counts from their creation, quanta, and ticks charged. */
module KernelAccounts {
  import opened Arithmetic
  import opened KernelState
  import opened KernelQueues
  import opened KernelInvariant
  import opened KernelSteps
  import opened KernelTick
  import opened KernelRuns
  import opened KernelTheorems
  import opened KernelEffects

  // ----- semaphores -----

  /** A semaphore created with v lets exactly min(waits, v + signals) waits complete in the run that follows; the others
      are queued. */
  lemma CreatedSemaphore(s: System, v: int, ops: seq<Op>)
    requires KInv(s) && LastFree(s.sems) >= 0 && Sound(s, [Op.SemIni(v)] + ops)
    ensures Run(s, [Op.SemIni(v)] + ops).Alive? && |Run(s, [Op.SemIni(v)] + ops).s.sems| == MAXSEMS
    ensures var i := LastFree(s.sems);
            var waits, supply := Count(ops, Wait(i)), v + Count(ops, Signal(i));
            waits - |Run(s, [Op.SemIni(v)] + ops).s.sems[i].queue| == if waits <= supply then waits else supply
  {
    var s1, i := DoSemIni(s, v), LastFree(s.sems);
    Parts(s);
    assert ([Op.SemIni(v)] + ops)[1..] == ops;
    assert Permitted(s, Op.SemIni(v)) && Sound(s1, ops);
    assert Run(s, [Op.SemIni(v)] + ops) == Run(s1, ops);
    hide KInv, Run, Sound, DoSemIni;
    SemIniKeeps(s, v);
    SemIniEffect(s, v);
    SemaphoreAccounting(s1, ops, i);
  }

  // ----- quanta -----

  /** Process r has the processor before and after every step of the run. */
  predicate Holds(s: System, ops: seq<Op>, r: int)
    decreases ops
  {
    s.running == r &&
    (ops == [] || (CanStep(s, ops[0]) && Step(s, ops[0]).Alive? && Holds(Step(s, ops[0]).s, ops[1..], r)))
  }

  /** A step other than the timer interrupt that does not give away the processor leaves the tick counts alone. */
  lemma StepTicks(s: System, op: Op)
    requires KInv(s) && Slot(s.running) && CanStep(s, op) && Permitted(s, op) && !op.Tick?
    requires Step(s, op).Alive? && Step(s, op).s.running == s.running
    ensures var s' := Step(s, op).s;
            |s'.procs| == |s.procs| == MAXPROCS && s'.rescheduler == s.rescheduler
            && s'.procs[s.running].tick == s.procs[s.running].tick
  {
    Parts(s);
    if s.ready != [] { ReadyHead(s); }
    hide KInv, DoActivate, DoWait, DoSignal, DoDelay, DoTerminate, Schedule, InsertTimer, JoinsBehind, Ticks, LastFree;
    match op
    case Go =>
    case Activate(prec) =>
      RunningInUse(s);
      ActivateEffect(s, prec);
    case Terminate => TerminateEffect(s);
    case SemIni(v) => SemIniEffect(s, v);
    case Wait(h) =>
      WaitTakesOne(s, h);
      if Slot(h) && s.sems[h].count <= 0 { WaitQueues(s, h); }
    case Signal(h) =>
      SignalAddsOne(s, h);
      if Slot(h) && s.sems[h].count < 0 { SignalEffect(s, h); }
    case Delay(n) => DelayEffect(s, n);
  }

  lemma RunningInUse(s: System)
    requires PlacesOk(s) && Slot(s.running)
    ensures InUse(s.procs, s.running)
  {
    assert Occ(s)[s.running] >= 1;
  }

  /** While a process holds the processor its tick counts the timer interrupts, up to its quantum. */
  lemma {:induction false} HoldCounts(s: System, ops: seq<Op>, r: int)
    requires KInv(s) && Slot(r) && Sound(s, ops) && Holds(s, ops, r)
    requires s.procs[r].tick + Count(ops, Op.Tick) <= QUANTUM && s.rescheduler + Count(ops, Op.Tick) <= RESCHEDULER
    ensures var s' := Run(s, ops);
            s'.Alive? && KInv(s'.s) && s'.s.running == r && |s'.s.procs| == MAXPROCS
            && s'.s.procs[r].tick == s.procs[r].tick + Count(ops, Op.Tick)
            && s'.s.rescheduler == s.rescheduler + Count(ops, Op.Tick)
    decreases ops
  {
    Parts(s);
    if ops != [] {
      var op := ops[0];
      StepKeepsExactly(s, op);
      hide KInv, Step, Permitted, CanStep;
      if op == Op.Tick { TickCounts(s); } else { StepTicks(s, op); }
      HoldCounts(Step(s, op).s, ops[1..], r);
    }
  }

  lemma TickCounts(s: System)
    requires KInv(s) && Slot(s.running) && s.rescheduler < RESCHEDULER && s.procs[s.running].tick < QUANTUM
    ensures |s.procs| == MAXPROCS && Step(s, Op.Tick).Alive?
    ensures var s' := Step(s, Op.Tick).s;
            |s'.procs| == MAXPROCS && s'.running == s.running && s'.rescheduler == s.rescheduler + 1
            && s'.procs[s.running].tick == s.procs[s.running].tick + 1
  {
    Parts(s);
    hide KInv, Expire, DoTick;
    TickStays(s);
    ExpireSpares(s);
  }

  /** A process that has come to the processor keeps it for QUANTUM timer interrupts, whatever else happens that does
      not take it away, and the next interrupt puts it behind its equals and hands the processor to the head of the
      queue. */
  lemma QuantumRun(s: System, ops: seq<Op>, r: int)
    requires KInv(s) && Slot(r) && Sound(s, ops) && Holds(s, ops, r) && s.procs[r].tick == 0
    requires Count(ops, Op.Tick) <= QUANTUM && s.rescheduler + Count(ops, Op.Tick) < RESCHEDULER
    ensures var s' := Run(s, ops);
            s'.Alive? && 0 <= r < |s'.s.procs| && s'.s.running == r
            && 0 <= Expire(s'.s).running < |Expire(s'.s).procs|
            && if Count(ops, Op.Tick) < QUANTUM then DoTick(s'.s).running == r
               else Yields(Expire(s'.s), DoTick(s'.s))
  {
    HoldCounts(s, ops, r);
    var s' := Run(s, ops).s;
    hide KInv, Sound, Holds, Run, Expire, Yields;
    if Count(ops, Op.Tick) < QUANTUM {
      TickCounts(s');
    } else {
      TickYields(s');
    }
    ExpireSpares(s');
  }

  /** A process that yields keeps the processor exactly when every ready process is worse; otherwise the first ready one
      gets it. */
  lemma YieldsToNoWorse(s: System, s': System)
    requires 0 <= s.running < |s.procs| && Sorted(s.procs, s.ready) && Yields(s, s')
    ensures (forall p | p in s.ready :: Prec(s.procs, s.running) < Prec(s.procs, p)) ==> s'.running == s.running
    ensures (exists p | p in s.ready :: Prec(s.procs, p) <= Prec(s.procs, s.running)) ==>
              s.ready != [] && s'.running == s.ready[0]
  {
    var q :| JoinsBehind(s.procs, s.ready, s.running, q)
             && Dispatched(Ticked(s).(ready := q, rescheduler := s.rescheduler + 1), s');
    InsertJoins(s.procs, s.ready, s.running);
    JoinsOneWay(s.procs, s.ready, s.running, q, Insert(s.procs, s.ready, s.running));
    hide JoinsBehind;
    if s.ready != [] {
      forall p | p in s.ready ensures Prec(s.procs, s.ready[0]) <= Prec(s.procs, p) {
        var i :| 0 <= i < |s.ready| && s.ready[i] == p;
        assert i > 0 ==> Prec(s.procs, s.ready[0]) <= Prec(s.procs, s.ready[i]);
      }
    }
  }

  // ----- ticks charged -----

  function Total(procs: seq<Proc>): int {
    if procs == [] then 0 else procs[0].tickTotal + Total(procs[1..])
  }

  /** The ticks counted so far: those charged to the slots and those of the running process since it was dispatched. */
  function Spent(s: System): int {
    Total(s.procs) + if 0 <= s.running < |s.procs| then s.procs[s.running].tick else 0
  }

  /** Two tables that differ at most in what is charged to slot r. */
  lemma {:induction false} TotalDiffers(procs: seq<Proc>, procs': seq<Proc>, r: int)
    requires |procs| == |procs'|
    requires forall p | 0 <= p < |procs| && p != r :: procs[p].tickTotal == procs'[p].tickTotal
    ensures Total(procs') - Total(procs)
            == if 0 <= r < |procs| then procs'[r].tickTotal - procs[r].tickTotal else 0
  {
    if procs != [] {
      TotalDiffers(procs[1..], procs'[1..], r - 1);
    }
  }

  /** Handing over the processor charges the outgoing process, so no tick is lost. */
  lemma DispatchSpends(s: System, s': System)
    requires Dispatched(s, s') && (s.running == NONE || 0 <= s.running < |s.procs|) && 0 <= s'.running < |s.procs|
    ensures Spent(s') == Spent(s)
  {
    TotalDiffers(s.procs, s'.procs, s.running);
  }

  lemma ExpireSpends(s: System)
    requires KInv(s) && Slot(s.running) && Sized(Expire(s))
    ensures Expire(s).running == s.running && Spent(Ticked(Expire(s))) == Spent(s) + 1
  {
    var e := Expire(s);
    ExpireEffect(s, 0);
    ExpireSpares(s);
    hide KInv, Expire, Wakes, Due, Decremented, Class, Sorted, Later;
    TotalDiffers(s.procs, e.procs, s.running);
    TotalDiffers(e.procs, Ticked(e).procs, s.running);
  }

  /** A timer interrupt adds one tick, unless it is the one that makes new priorities. */
  lemma TickSpends(s: System)
    requires KInv(s) && Slot(s.running) && s.rescheduler < RESCHEDULER
    ensures |s.procs| == MAXPROCS && Spent(DoTick(s)) == Spent(s) + 1
    ensures DoTick(s).rescheduler == s.rescheduler + 1
  {
    TickRunning(s);
    hide KInv, Expire, DoTick, JoinsBehind, Total;
    Parts(s);
    ExpireSpares(s);
    ExpireSpends(s);
    var e := Expire(s);
    if s.procs[s.running].tick < QUANTUM {
      TickStays(s);
    } else {
      TickYields(s);
      var q :| JoinsBehind(e.procs, e.ready, e.running, q)
               && Dispatched(Ticked(e).(ready := q, rescheduler := e.rescheduler + 1), DoTick(s));
      DispatchSpends(Ticked(e).(ready := q, rescheduler := e.rescheduler + 1), DoTick(s));
    }
  }

  /** A signal that hands over the processor charges nobody: the ticks of the process that loses it are forgotten, and
      the woken one goes on from its own. */
  lemma SignalSpends(s: System, h: int)
    requires KInv(s) && Slot(s.running) && Slot(h)
    ensures |s.sems| == MAXSEMS && |s.procs| == MAXPROCS
    ensures s.sems[h].count < 0 ==> s.sems[h].queue != [] && Slot(s.sems[h].queue[0])
    ensures Spent(DoSignal(s, h)) - Spent(s)
            == if s.sems[h].count < 0 && s.procs[s.sems[h].queue[0]].prec <= s.procs[s.running].prec
               then s.procs[s.sems[h].queue[0]].tick - s.procs[s.running].tick
               else 0
  {
    Parts(s);
    hide KInv, DoSignal, JoinsBehind;
    if s.sems[h].count < 0 {
      SignalEffect(s, h);
      TotalDiffers(s.procs, DoSignal(s, h).procs, NONE);
    } else {
      SignalAddsOne(s, h);
    }
  }

  lemma TerminateSpends(s: System)
    requires Sized(s) && Slot(s.running) && s.ready != [] && Slot(s.ready[0])
    ensures Spent(DoTerminate(s).s) == Spent(s) && DoTerminate(s).s.rescheduler == s.rescheduler
  {
    TerminateEffect(s);
    hide DoTerminate;
    var freed := s.procs[s.running].(stato := FREE);
    var s1 := s.(procs := s.procs[s.running := freed], count := s.count - 1);
    TotalDiffers(s.procs, s1.procs, s.running);
    DispatchSpends(s1, DoTerminate(s).s);
  }

  lemma WaitSpends(s: System, h: int)
    requires KInv(s) && Slot(s.running) && (Slot(h) && s.sems[h].count <= 0 ==> s.ready != [])
    ensures Spent(DoWait(s, h)) == Spent(s) && DoWait(s, h).rescheduler == s.rescheduler
  {
    Parts(s);
    if s.ready != [] { ReadyHead(s); }
    hide KInv, DoWait, JoinsBehind, Total;
    WaitTakesOne(s, h);
    if Slot(h) && s.sems[h].count <= 0 {
      WaitQueues(s, h);
      var q :| JoinsBehind(s.procs, s.sems[h].queue, s.running, q)
               && Dispatched(s.(sems := s.sems[h := Sem(q, s.sems[h].count - 1, s.sems[h].busy)]), DoWait(s, h));
      DispatchSpends(s.(sems := s.sems[h := Sem(q, s.sems[h].count - 1, s.sems[h].busy)]), DoWait(s, h));
    }
  }

  lemma DelaySpends(s: System, n: int)
    requires Sized(s) && Slot(s.running) && s.ready != [] && Slot(s.ready[0])
    ensures Spent(DoDelay(s, n)) == Spent(s) && DoDelay(s, n).rescheduler == s.rescheduler
  {
    hide DoDelay, Total;
    DelayEffect(s, n);
    DispatchSpends(s.(timer := DoDelay(s, n).timer), DoDelay(s, n));
  }

  lemma GoSpends(s: System)
    requires Sized(s) && s.running == NONE && (s.ready != [] ==> Slot(s.ready[0]))
    ensures Spent(Schedule(s)) == Spent(s) && Schedule(s).rescheduler == s.rescheduler
  {
    if s.ready != [] {
      ScheduleDispatches(s);
      hide Schedule, Total;
      DispatchSpends(s, Schedule(s));
    }
  }

  /** No other step but an activation, which may use the slot of a process that has ended, adds or loses a tick. */
  lemma OtherSpends(s: System, op: Op)
    requires KInv(s) && CanStep(s, op) && Permitted(s, op) && Step(s, op).Alive?
    requires !op.Tick? && !op.Signal? && !op.Activate?
    ensures Spent(Step(s, op).s) == Spent(s) && Step(s, op).s.rescheduler == s.rescheduler
  {
    Parts(s);
    if s.ready != [] { ReadyHead(s); }
    StepKeepsExactly(s, op);
    hide KInv, DoWait, DoDelay, DoTerminate, Schedule, LastFree, Spent;
    match op
    case Go => if s.running == NONE { GoSpends(s); }
    case Terminate => TerminateSpends(s);
    case SemIni(v) => SemIniSpends(s, v);
    case Wait(h) => WaitSpends(s, h);
    case Delay(n) => DelaySpends(s, n);
  }

  lemma SemIniSpends(s: System, v: int)
    ensures Spent(DoSemIni(s, v)) == Spent(s) && DoSemIni(s, v).rescheduler == s.rescheduler
  {
  }

  /** Between two re-prioritisations no tick is lost: over a run without signals and activations the ticks counted grow
      by the number of timer interrupts. */
  lemma {:induction false} RunSpends(s: System, ops: seq<Op>)
    requires KInv(s) && Sound(s, ops) && s.rescheduler + Count(ops, Op.Tick) <= RESCHEDULER
    requires forall op | op in ops :: !op.Signal? && !op.Activate?
    ensures Run(s, ops).Alive? && Spent(Run(s, ops).s) == Spent(s) + Count(ops, Op.Tick)
    decreases ops
  {
    Parts(s);
    hide KInv, Step, Permitted, Spent;
    if ops != [] {
      StepKeepsExactly(s, ops[0]);
      if ops[0] == Op.Tick { TickStep(s); } else { OtherSpends(s, ops[0]); }
      RunSpends(Step(s, ops[0]).s, ops[1..]);
    }
  }

  lemma TickStep(s: System)
    requires KInv(s) && CanStep(s, Op.Tick) && s.rescheduler < RESCHEDULER
    ensures Spent(Step(s, Op.Tick).s) == Spent(s) + 1 && Step(s, Op.Tick).s.rescheduler == s.rescheduler + 1
  {
    Parts(s);
    hide KInv, DoTick;
    TickSpends(s);
  }

  /** The last ticks of the process that runs when new priorities are made count in its new priority and once more
      towards its next one: it is charged before they are made and again when the processor is handed over. */
  lemma ChargedTwice(s: System)
    requires KInv(s) && Slot(s.running) && s.rescheduler >= RESCHEDULER
    ensures |s.procs| == |DoTick(s).procs| == MAXPROCS
    ensures var p, p' := s.procs[s.running], DoTick(s).procs[s.running];
            p'.prec == p.baseprec + Quotient(p.tickTotal + p.tick + 1, 10) && p'.tickTotal == p.tick + 1
  {
    hide KInv, Expire, DoTick, Restarts, Quotient;
    Parts(s);
    ExpireSpares(s);
    TickRestarts(s);
    RestartCharges(Expire(s), DoTick(s));
  }

  lemma RestartCharges(s: System, s': System)
    requires 0 <= s.running < |s.procs| && Sorted(s.procs, s.ready) && Restarts(s, s')
    ensures |s'.procs| == |s.procs|
    ensures var p, p' := s.procs[s.running], s'.procs[s.running];
            p'.prec == p.baseprec + Quotient(p.tickTotal + p.tick + 1, 10) && p'.tickTotal == p.tick + 1
  {
    hide JoinsBehind, Sorted, Class, Quotient;
    var q, s2 :| JoinsBehind(s.procs, s.ready, s.running, q)
                 && Reprioritised(TickedAndCharged(s).(ready := q, rescheduler := 0), s2) && Dispatched(s2, s');
    JoinerIsIn(s.procs, s.ready, s.running, q);
  }

  lemma JoinerIsIn(procs: seq<Proc>, q: seq<int>, p: int, q': seq<int>)
    requires Sorted(procs, q) && JoinsBehind(procs, q, p, q')
    ensures p in q'
  {
    InsertJoins(procs, q, p);
    JoinsOneWay(procs, q, p, q', Insert(procs, q, p));
    InsertMembers(procs, q, p);
    assert p in multiset(Insert(procs, q, p));
  }
}
