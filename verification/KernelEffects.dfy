/** What each step of the kernel does to the process table, the queues and the counters. */
module KernelEffects {
  import opened Arithmetic
  import opened KernelState
  import opened KernelQueues
  import opened KernelInvariant
  import opened KernelSteps
  import opened KernelTick
  import opened KernelRuns
  import opened KernelTheorems

  /** q' is q with p behind the members of its own priority: sorted, and every priority class as it was, with p last in
      its own. */
  ghost predicate JoinsBehind(procs: seq<Proc>, q: seq<int>, p: int, q': seq<int>) {
    Sorted(procs, q') && forall v :: Class(procs, q', v) == Class(procs, q, v) + if Prec(procs, p) == v then [p] else []
  }

  lemma InsertJoins(procs: seq<Proc>, q: seq<int>, p: int)
    requires Sorted(procs, q)
    ensures JoinsBehind(procs, q, p, Insert(procs, q, p))
  {
    InsertSorted(procs, q, p);
    hide Sorted, Insert, Class;
    forall v
      ensures Class(procs, Insert(procs, q, p), v) == Class(procs, q, v) + if Prec(procs, p) == v then [p] else []
    {
      InsertFifo(procs, q, p, v);
    }
  }

  /** A sorted queue is determined by its priority classes, so JoinsBehind leaves no choice. */
  lemma JoinsOneWay(procs: seq<Proc>, q: seq<int>, p: int, q1: seq<int>, q2: seq<int>)
    requires JoinsBehind(procs, q, p, q1) && JoinsBehind(procs, q, p, q2)
    ensures q1 == q2
  {
    assert forall v :: Class(procs, q1, v) == Class(procs, q2, v);
    ClassesDetermine(procs, q1, q2);
  }

  lemma {:induction false} ClassesDetermine(procs: seq<Proc>, q1: seq<int>, q2: seq<int>)
    requires Sorted(procs, q1) && Sorted(procs, q2) && forall v :: Class(procs, q1, v) == Class(procs, q2, v)
    ensures q1 == q2
    decreases |q1| + |q2|
  {
    if q1 == [] {
      if q2 != [] { ClassOfHead(procs, q2); }
    } else if q2 == [] {
      ClassOfHead(procs, q1);
    } else {
      ClassOfHead(procs, q1);
      ClassOfHead(procs, q2);
      HeadIsBest(procs, q1, Prec(procs, q2[0]));
      HeadIsBest(procs, q2, Prec(procs, q1[0]));
      forall v ensures Class(procs, q1[1..], v) == Class(procs, q2[1..], v) {
        ClassOfTail(procs, q1, v);
        ClassOfTail(procs, q2, v);
      }
      hide Sorted, Class;
      assert Sorted(procs, q1[1..]) && Sorted(procs, q2[1..]) by { SortedTail(procs, q1); SortedTail(procs, q2); }
      ClassesDetermine(procs, q1[1..], q2[1..]);
    }
  }

  lemma SortedTail(procs: seq<Proc>, q: seq<int>)
    requires q != [] && Sorted(procs, q)
    ensures Sorted(procs, q[1..])
  {
  }

  lemma ClassOfHead(procs: seq<Proc>, q: seq<int>)
    requires q != []
    ensures Class(procs, q, Prec(procs, q[0])) != [] && Class(procs, q, Prec(procs, q[0]))[0] == q[0]
  {
  }

  lemma ClassOfTail(procs: seq<Proc>, q: seq<int>, v: int)
    requires q != []
    ensures Class(procs, q[1..], v) == Class(procs, q, v)[if Prec(procs, q[0]) == v then 1 else 0..]
  {
  }

  /** The head of a sorted queue is no worse than any priority that occurs in it. */
  lemma HeadIsBest(procs: seq<Proc>, q: seq<int>, v: int)
    requires q != [] && Sorted(procs, q) && Class(procs, q, v) != []
    ensures Prec(procs, q[0]) <= v
  {
    if v < Prec(procs, q[0]) {
      forall i | 0 <= i < |q| ensures Prec(procs, q[i]) != v {
        if i > 0 { assert Prec(procs, q[0]) <= Prec(procs, q[i]); }
      }
      ClassEmpty(procs, q, v);
    }
  }

  // ----- schedulatore -----

  /** The ticks of the outgoing process are charged to it, and the incoming one starts with none. */
  function Handed(p: Proc, outgoing: bool, incoming: bool): Proc {
    var c := if outgoing then p.(tickTotal := p.tickTotal + p.tick) else p;
    if incoming then c.(stato := RUNNING, tick := 0) else c
  }

  /** From s1 to s' the processor has gone to the head of the ready queue, and nothing else has changed. */
  ghost predicate Dispatched(s1: System, s': System) {
    && s1.ready == [s'.running] + s'.ready && |s'.procs| == |s1.procs|
    && (forall p | 0 <= p < |s1.procs| :: s'.procs[p] == Handed(s1.procs[p], p == s1.running, p == s'.running))
    && s'.sems == s1.sems && s'.timer == s1.timer && s'.count == s1.count && s'.rescheduler == s1.rescheduler
  }

  lemma ScheduleDispatches(s: System)
    requires s.ready != []
    ensures Dispatched(s, Schedule(s))
  {
  }

  // ----- activation, termination, semaphores, delays -----

  /** The first free slot holds the new process, which is ready behind its equals. */
  lemma ActivateEffect(s: System, prec: int)
    requires KInv(s)
    ensures var s' := DoActivate(s, prec);
            if s.count == MAXPROCS then s' == s
            else exists i | Slot(i) && s.procs[i].stato == FREE ::
              && (forall j | 0 <= j < i :: s.procs[j].stato != FREE)
              && s'.procs == s.procs[i := Proc(prec, prec, PRONTO, 0, 0)] && JoinsBehind(s'.procs, s.ready, i, s'.ready)
              && s'.count == s.count + 1 && s'.running == s.running && s'.sems == s.sems && s'.timer == s.timer
              && s'.rescheduler == s.rescheduler
  {
    BusyBound(s.procs);
    if s.count != MAXPROCS {
      var i := FirstFree(s.procs);
      var procs := s.procs[i := Proc(prec, prec, PRONTO, 0, 0)];
      ReadyElsewhere(s, i);
      SortedExcept(s.procs, procs, s.ready, i);
      hide KInv, Sorted, JoinsBehind, Insert;
      InsertJoins(procs, s.ready, i);
      assert Slot(i);
    }
  }

  lemma ReadyElsewhere(s: System, i: int)
    requires PlacesOk(s) && Slot(i) && s.procs[i].stato == FREE
    ensures i !in s.ready
  {
    if i in s.ready {
      assert i in multiset(s.ready);
      Member(s, i);
    }
  }

  lemma SortedExcept(procs: seq<Proc>, procs': seq<Proc>, q: seq<int>, i: int)
    requires Sorted(procs, q) && i !in q && 0 <= i < |procs| == |procs'| && procs' == procs[i := procs'[i]]
    ensures Sorted(procs', q)
  {
  }

  /** The slot of the running process is free, and the head of the ready queue runs. */
  lemma TerminateEffect(s: System)
    requires Slot(s.running) && Sized(s)
    ensures DoTerminate(s).Halted? <==> s.ready == []
    ensures s.ready != [] ==>
              var freed := s.procs[s.running].(stato := FREE);
              Dispatched(s.(procs := s.procs[s.running := freed], count := s.count - 1), DoTerminate(s).s)
  {
    if s.ready != [] {
      var freed := s.procs[s.running].(stato := FREE);
      ScheduleDispatches(s.(procs := s.procs[s.running := freed], count := s.count - 1));
    }
  }

  /** The last free semaphore gets the value asked for and an empty queue; nothing else changes. */
  lemma SemIniEffect(s: System, v: int)
    ensures var s', i := DoSemIni(s, v), LastFree(s.sems);
            if i == -1 then s' == s
            else |s'.sems| == |s.sems| && s'.sems[i] == Sem([], v, true) && s' == s.(sems := s'.sems)
                 && forall h | 0 <= h < |s.sems| && h != i :: s'.sems[h] == s.sems[h]
  {
  }

  /** A wait takes one from a positive count and nothing else happens. */
  lemma WaitTakesOne(s: System, h: int)
    requires Sized(s)
    ensures !Slot(h) ==> DoWait(s, h) == s
    ensures Slot(h) && s.sems[h].count > 0 ==>
              DoWait(s, h) == s.(sems := s.sems[h := s.sems[h].(count := s.sems[h].count - 1)])
  {
  }

  /** Otherwise the count falls below zero, the caller waits behind its equals, and the head of the ready queue runs, if
      there is one. */
  lemma WaitQueues(s: System, h: int)
    requires KInv(s) && Slot(s.running) && Slot(h) && s.sems[h].count <= 0
    ensures exists q | JoinsBehind(s.procs, s.sems[h].queue, s.running, q) ::
              var s1 := s.(sems := s.sems[h := Sem(q, s.sems[h].count - 1, s.sems[h].busy)]);
              if s.ready == [] then DoWait(s, h) == s1 else Dispatched(s1, DoWait(s, h))
  {
    var q := Insert(s.procs, s.sems[h].queue, s.running);
    assert Sorted(s.procs, s.sems[h].queue);
    hide KInv, Sorted, JoinsBehind, Insert, Dispatched;
    InsertJoins(s.procs, s.sems[h].queue, s.running);
    if s.ready != [] { ScheduleDispatches(Enqueued(s, h)); }
  }

  /** With nobody waiting, a signal adds one to the count and nothing else happens. */
  lemma SignalAddsOne(s: System, h: int)
    requires KInv(s)
    ensures !Slot(h) ==> DoSignal(s, h) == s
    ensures Slot(h) && s.sems[h].count >= 0 ==>
              DoSignal(s, h) == s.(sems := s.sems[h := s.sems[h].(count := s.sems[h].count + 1)])
  {
    if Slot(h) { assert SemOk(s.sems[h]); }
  }

  /** Otherwise the first process that waits is woken.  It takes the processor unless its priority is worse than that of
      the running process; the one of the two that does not run is ready, behind its equals. */
  lemma SignalEffect(s: System, h: int)
    requires KInv(s) && Slot(s.running) && Slot(h) && s.sems[h].count < 0
    ensures s.sems[h].queue != [] && Slot(s.sems[h].queue[0])
    ensures var s', p := DoSignal(s, h), s.sems[h].queue[0];
            var takes := s.procs[p].prec <= s.procs[s.running].prec;
            && s'.sems == s.sems[h := Sem(s.sems[h].queue[1..], s.sems[h].count + 1, s.sems[h].busy)]
            && s'.running == (if takes then p else s.running)
            && JoinsBehind(s.procs, s.ready, if takes then s.running else p, s'.ready)
            && s'.procs == (if takes then s.procs[p := s.procs[p].(stato := PRONTO)] else s.procs)
            && s'.timer == s.timer && s'.count == s.count && s'.rescheduler == s.rescheduler
  {
    hide Occ, SemOcc, JoinsBehind, Insert, TimerOk, Busy;
    DequeuedKeeps(s, h);
    assert Sorted(s.procs, s.ready);
    var p := s.sems[h].queue[0];
    hide KInv, Sorted, PlacesOk, SemsOk, SortedOk;
    InsertJoins(s.procs, s.ready, s.running);
    InsertJoins(s.procs, s.ready, p);
  }

  /** After a signal the running process is no worse than the one that was woken, nor than the one that ran before. */
  lemma SignalRunsBetter(s: System, h: int)
    requires KInv(s) && Slot(s.running) && Slot(h) && s.sems[h].count < 0
    ensures s.sems[h].queue != []
    ensures var s' := DoSignal(s, h);
            && Prec(s.procs, s'.running) <= Prec(s.procs, s.sems[h].queue[0])
            && Prec(s.procs, s'.running) <= Prec(s.procs, s.running)
  {
    SignalEffect(s, h);
    hide KInv, DoSignal, JoinsBehind;
  }

  /** A delay queues a request for the caller and the head of the ready queue runs. */
  lemma DelayEffect(s: System, n: int)
    requires s.ready != []
    ensures Dispatched(s.(timer := DoDelay(s, n).timer), DoDelay(s, n))
  {
    ScheduleDispatches(s.(timer := InsertTimer(s.timer, Request(s.running, Ticks(n)))));
  }

  /** When request k is due, in ticks from now. */
  function WakeAt(t: seq<Request>, k: int): int {
    if 0 <= k < |t| then t[k].dattesa + WakeAt(t, k - 1) else 0
  }

  lemma {:induction false} WakeAtTail(t: seq<Request>, k: int)
    requires 0 <= k < |t|
    ensures WakeAt(t, k) == t[0].dattesa + WakeAt(t[1..], k - 1)
  {
    if k > 0 { WakeAtTail(t, k - 1); }
  }

  /** A new request goes behind those due earlier and ahead of those due at the same time. */
  lemma {:induction false} InsertTimerAt(t: seq<Request>, r: Request) returns (k: int)
    ensures 0 <= k <= |t| && TimerProcs(InsertTimer(t, r)) == TimerProcs(t)[..k] + [r.proc] + TimerProcs(t)[k..]
    ensures forall i | 0 <= i < k :: WakeAt(t, i) < r.dattesa
    ensures k < |t| ==> r.dattesa <= WakeAt(t, k)
    decreases t
  {
    if t != [] && r.dattesa > t[0].dattesa {
      var r1 := r.(dattesa := r.dattesa - t[0].dattesa);
      var j := InsertTimerAt(t[1..], r1);
      k := j + 1;
      InsertTimerOn(t, r, r1);
      Splice(TimerProcs(t), r.proc, j);
      hide WakeAt, InsertTimer, TimerProcs;
      forall i | 0 <= i < k ensures WakeAt(t, i) < r.dattesa {
        WakeAtTail(t, i);
        if i == 0 { NoWait(t[1..]); }
      }
      if k < |t| { WakeAtTail(t, k); }
    } else {
      k := 0;
      InsertTimerHere(t, r);
      NoWait(t);
    }
  }

  lemma NoWait(t: seq<Request>)
    ensures WakeAt(t, -1) == 0
  {
  }

  /** kernel_go lets the head of the ready queue run, if nobody runs yet. */
  lemma GoEffect(s: System)
    requires s.running == NONE && s.ready != []
    ensures Step(s, Op.Go).Alive? && Dispatched(s, Step(s, Op.Go).s)
  {
    ScheduleDispatches(s);
  }

  // ----- the timer interrupt -----

  lemma {:induction false} ClassFrame(procs: seq<Proc>, procs': seq<Proc>, q: seq<int>, v: int)
    requires SamePrec(procs, procs')
    ensures Class(procs', q, v) == Class(procs, q, v)
  {
    if q != [] { ClassFrame(procs, procs', q[1..], v); }
  }

  /** The processes whose delay is over become ready: they leave the timer queue in its order and go behind their equals
      in the ready queue; nothing else changes. */
  lemma ExpireEffect(s: System, v: int)
    requires KInv(s)
    ensures var s', due := Expire(s), Due(Decremented(s.timer));
            && (forall p :: p in due <==> p in Wakes(s.timer, 0) && Wakes(s.timer, 0)[p] == 1)
            && Wakes(s'.timer, 0) == Later(Wakes(s.timer, 0), 1)
            && Sorted(s'.procs, s'.ready)
            && Class(s'.procs, s'.ready, v) == Class(s.procs, s.ready, v) + Class(s.procs, due, v)
            && s' == s.(procs := s'.procs, ready := s'.ready, timer := s'.timer) && |s'.procs| == |s.procs|
            && forall p | 0 <= p < |s.procs| ::
                 s'.procs[p] == if p in due then s.procs[p].(stato := PRONTO) else s.procs[p]
  {
    TimerDistinct(s);
    TickRefines(s.timer);
    var s', due := Expire(s), Due(Decremented(s.timer));
    assert Sorted(s.procs, s.ready);
    SortedFrame(s.procs, s'.procs, s.ready);
    hide KInv, Sorted, Class, Insert, InsertAll, Due, NotDue, Wakes, Decremented;
    InsertAllSorts(s'.procs, s.ready, due, v);
    ClassFrame(s.procs, s'.procs, s.ready, v);
    ClassFrame(s.procs, s'.procs, due, v);
  }

  /** The running process with one tick more. */
  function Ticked(s: System): System
    requires 0 <= s.running < |s.procs|
  {
    s.(procs := s.procs[s.running := s.procs[s.running].(tick := s.procs[s.running].tick + 1)])
  }

  /** Delays do not touch the running process or the counters. */
  lemma ExpireSpares(s: System)
    requires KInv(s) && Slot(s.running)
    ensures var e := Expire(s);
            Sized(e) && Sorted(e.procs, e.ready) && e.running == s.running && e.rescheduler == s.rescheduler
            && e.procs[s.running] == s.procs[s.running]
  {
    ExpireEffect(s, 0);
    assert s.running !in Wakes(s.timer, 0) by {
      if s.running in Wakes(s.timer, 0) { RunningAwake(s, s.running); }
    }
    hide PlacesOk, SemsOk, TimerOk, SortedOk, Class, Sorted, Expire, Wakes, Due, Decremented;
    Parts(s);
  }

  /** Within its quantum the running process stays, one tick older. */
  lemma TickStays(s: System)
    requires KInv(s) && Slot(s.running) && s.rescheduler < RESCHEDULER && s.procs[s.running].tick < QUANTUM
    ensures 0 <= Expire(s).running < |Expire(s).procs|
    ensures DoTick(s) == Ticked(Expire(s)).(rescheduler := s.rescheduler + 1)
  {
    hide KInv, Expire, Sorted;
    ExpireSpares(s);
  }

  /** At the end of its quantum it goes behind its equals and the head of the ready queue runs. */
  ghost predicate Yields(s: System, s': System)
    requires 0 <= s.running < |s.procs|
  {
    exists q | JoinsBehind(s.procs, s.ready, s.running, q) ::
      Dispatched(Ticked(s).(ready := q, rescheduler := s.rescheduler + 1), s')
  }

  lemma TickYields(s: System)
    requires KInv(s) && Slot(s.running) && s.rescheduler < RESCHEDULER && s.procs[s.running].tick >= QUANTUM
    ensures 0 <= Expire(s).running < |Expire(s).procs|
    ensures Yields(Expire(s), DoTick(s))
  {
    hide KInv, Expire, Sorted, Insert, JoinsBehind, Dispatched;
    ExpireSpares(s);
    var e := Expire(s);
    var q := Insert(e.procs, e.ready, e.running);
    InsertJoins(e.procs, e.ready, e.running);
    InsertFrame(e.procs, Ticked(e).procs, e.ready, e.running);
    InsertMembers(e.procs, e.ready, e.running);
    ScheduleDispatches(Ticked(e).(ready := q, rescheduler := s.rescheduler + 1));
  }

  /** The ready processes have new priorities, by the ticks they have used, which are counted from zero again; the queue
      is stably sorted by the new priorities. */
  ghost predicate Reprioritised(s: System, s': System) {
    && s' == s.(procs := s'.procs, ready := s'.ready) && |s'.procs| == |s.procs|
    && (forall p | 0 <= p < |s.procs| ::
          var was := s.procs[p];
          s'.procs[p] == if p in s.ready
                         then Proc(was.baseprec + Quotient(was.tickTotal, 10), was.baseprec, PRONTO, was.tick, 0)
                         else was)
    && Sorted(s'.procs, s'.ready) && forall v :: Class(s'.procs, s'.ready, v) == Class(s'.procs, s.ready, v)
  }

  lemma RescheduleEffect(s: System)
    ensures Reprioritised(s, Reschedule(s))
  {
    var s' := Reschedule(s);
    hide Class, Sorted, InsertAll;
    NothingSorted(s'.procs);
    InsertAllSorts(s'.procs, [], s.ready, 0);
    forall v ensures Class(s'.procs, s'.ready, v) == Class(s'.procs, s.ready, v) {
      InsertAllSorts(s'.procs, [], s.ready, v);
    }
  }

  lemma NothingSorted(procs: seq<Proc>)
    ensures Sorted(procs, []) && forall v :: Class(procs, [], v) == []
  {
  }

  /** The running process with one tick more, and its ticks charged to it. */
  function TickedAndCharged(s: System): System
    requires 0 <= s.running < |s.procs|
  {
    var p := s.procs[s.running];
    s.(procs := s.procs[s.running := p.(tick := p.tick + 1, tickTotal := p.tickTotal + p.tick + 1)])
  }

  /** When re-prioritisation is due the counter starts again, the running process, whose ticks are charged to it, goes
      behind its equals, the ready ones get new priorities, and the head of the queue runs. */
  ghost predicate Restarts(s: System, s': System)
    requires 0 <= s.running < |s.procs|
  {
    exists q, s2 | JoinsBehind(s.procs, s.ready, s.running, q) ::
      Reprioritised(TickedAndCharged(s).(ready := q, rescheduler := 0), s2) && Dispatched(s2, s')
  }

  lemma TickRestarts(s: System)
    requires KInv(s) && Slot(s.running) && s.rescheduler >= RESCHEDULER
    ensures 0 <= Expire(s).running < |Expire(s).procs|
    ensures Restarts(Expire(s), DoTick(s)) && DoTick(s).rescheduler == 0
  {
    hide KInv, Expire, Sorted, Insert, JoinsBehind, Dispatched, Reschedule, Reprioritised;
    ExpireSpares(s);
    var e := Expire(s);
    var q := Insert(e.procs, e.ready, e.running);
    InsertJoins(e.procs, e.ready, e.running);
    InsertFrame(e.procs, TickedAndCharged(e).procs, e.ready, e.running);
    InsertMembers(e.procs, e.ready, e.running);
    var s1 := TickedAndCharged(e).(ready := q, rescheduler := 0);
    assert s1.procs == Charged(Bump(e).procs, e.running);
    Parts(s);
    assert DoTick(s) == Schedule(Reschedule(s1));
    RescheduleEffect(s1);
    RescheduleNonEmpty(s1);
    RescheduleRest(s1);
    ScheduleDispatches(Reschedule(s1));
  }

  lemma RescheduleRest(s: System)
    ensures var s' := Reschedule(s); s'.rescheduler == s.rescheduler
    ensures Schedule(Reschedule(s)).rescheduler == s.rescheduler
  {
    hide InsertAll;
  }
}
