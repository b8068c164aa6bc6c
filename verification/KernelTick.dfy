/** The timer interrupt keeps the invariant: expiry of delays, quantum and periodic re-prioritisation. */
module KernelTick {
  import opened KernelState
  import opened KernelQueues
  import opened KernelInvariant
  import opened KernelSteps

  // ----- expiry -----

  lemma TimerDistinct(s: System)
    requires PlacesOk(s)
    ensures DistinctProcs(s.timer)
  {
    hide SemOcc;
    forall i, j | 0 <= i < j < |s.timer| ensures s.timer[i].proc != s.timer[j].proc {
      CountTwice(TimerProcs(s.timer), i, j);
      assert Occ(s)[s.timer[i].proc] <= 1;
    }
  }

  lemma DueInUse(s: System, p: int)
    requires PlacesOk(s) && p in Due(Decremented(s.timer))
    ensures InUse(s.procs, p)
  {
    hide SemOcc;
    DueMembers(s.timer);
    DueMembers(Decremented(s.timer));
    assert multiset(Due(Decremented(s.timer)))[p] >= 1;
    assert Occ(s)[p] >= 1;
    Member(s, p);
  }

  lemma ExpireKeeps(s: System)
    requires KInv(s)
    ensures KInv(Expire(s)) && Occ(Expire(s)) == Occ(s)
  {
    hide SemOcc, InsertAll, Sorted, TimerOk;
    var t := Decremented(s.timer);
    TimerDistinct(s);
    TickRefines(s.timer);
    forall p | p in Due(t) ensures InUse(s.procs, p) { DueInUse(s, p); }
    ExpireOcc(s);
    hide Occ;
    PlacesFrame(s, Expire(s));
    ExpireSorted(s);
  }

  lemma ExpireSorted(s: System)
    requires Sized(s) && SortedOk(s)
    ensures SortedOk(Expire(s))
  {
    hide InsertAll, Sorted, Due, NotDue, Decremented;
    var procs := Expire(s).procs;
    SortedFrame(s.procs, procs, s.ready);
    InsertAllSorts(procs, s.ready, Due(Decremented(s.timer)), 0);
    forall h | 0 <= h < |s.sems| ensures Sorted(procs, s.sems[h].queue) {
      SortedFrame(s.procs, procs, s.sems[h].queue);
    }
  }

  lemma BumpKeeps(s: System)
    requires KInv(s) && Slot(s.running)
    ensures KInv(Bump(s)) && Occ(Bump(s)) == Occ(s)
  {
    hide SemOcc, TimerProcs, Sorted, SemsOk, TimerOk, SortedOk;
    assert Occ(Bump(s)) == Occ(s);
    hide Occ;
    PlacesFrame(s, Bump(s));
    FreeSorted(s, Bump(s));
  }

  // ----- giving up the processor -----

  /** s1 is s with the running process queued as ready; the scheduler then picks the head. */
  lemma YieldKeeps(s: System, s1: System)
    requires PlacesOk(s) && Slot(s.running) && s1.running == s.running
    requires Sized(s1) && Occ(s1) == Occ(s) + multiset{s.running} && SameAlive(s.procs, s1.procs) && s1.ready != []
    requires s1.count == Busy(s.procs)
    ensures PlacesOk(Schedule(s1)) && Occ(Schedule(s1)) == Occ(s) && Schedule(s1).count == Busy(Schedule(s1).procs)
  {
    hide SemOcc, TimerProcs;
    var p := s1.ready[0];
    assert multiset(s1.ready)[p] >= 1 && Occ(s1)[p] >= 1;
    RunningOnce(s);
    hide Occ;
    assert p in Occ(s);
    Member(s, p);
    ScheduleFrame(s1);
    ScheduleOcc(s1);
    Cancel(Occ(Schedule(s1)), Occ(s), multiset{s.running});
    PlacesFrame(s, Schedule(s1));
  }

  /** The running process put in the ready queue, its ticks charged when charge is set. */
  function Requeued(s: System, charge: bool, n: int): System
    requires 0 <= s.running < |s.procs|
  {
    var procs := if charge then Charged(s.procs, s.running) else s.procs;
    s.(rescheduler := n, procs := procs, ready := Insert(procs, s.ready, s.running))
  }

  lemma RequeuedKeeps(s: System, charge: bool, n: int)
    requires KInv(s) && Slot(s.running)
    ensures var s1 := Requeued(s, charge, n);
            && Sized(s1) && Occ(s1) == Occ(s) + multiset{s.running} && SortedOk(s1) && s1.ready != []
            && SameAlive(s.procs, s1.procs) && multiset(s1.ready) == multiset(s.ready) + multiset{s.running}
  {
    hide SemOcc, TimerProcs, Sorted, SemsOk, TimerOk, Insert;
    var s1 := Requeued(s, charge, n);
    InsertMembers(s1.procs, s.ready, s.running);
    hide Occ;
    FreeSorted(s, s.(procs := s1.procs));
    InsertSorted(s1.procs, s.ready, s.running);
  }

  // ----- re-prioritisation -----

  lemma RescheduleOcc(s: System)
    ensures Occ(Reschedule(s)) == Occ(s)
  {
    hide SemOcc, TimerProcs, InsertAll;
    InsertAllMembers(Reschedule(s).procs, [], s.ready);
  }

  /** A process in a semaphore queue is neither ready nor running. */
  lemma WaitingElsewhere(s: System, h: int, p: int)
    requires PlacesOk(s) && 0 <= h < |s.sems| && p in s.sems[h].queue
    ensures p !in s.ready && p != s.running
  {
    SemOccHas(s.sems, h, p);
    hide SemOcc, TimerProcs;
    assert multiset(s.sems[h].queue)[p] >= 1;
    assert Occ(s)[p] <= 1;
    Member(s, p);
  }

  /** The new priorities concern ready processes only, so every queue is sorted by them. */
  lemma RescheduleSorted(s: System, s1: System)
    requires PlacesOk(s) && Slot(s.running) && Sized(s1) && SortedOk(s1) && s1.sems == s.sems
    requires multiset(s1.ready) == multiset(s.ready) + multiset{s.running}
    ensures SortedOk(Reschedule(s1))
  {
    hide PlacesOk, InsertAll;
    var s2 := Reschedule(s1);
    InsertAllSorts(s2.procs, [], s1.ready, 0);
    forall h | 0 <= h < |s.sems| ensures Sorted(s2.procs, s2.sems[h].queue) {
      forall p | p in s.sems[h].queue ensures p !in s1.ready {
        WaitingElsewhere(s, h, p);
        assert p !in multiset(s1.ready);
      }
      var q := s.sems[h].queue;
      assert Sorted(s1.procs, q);
      forall i | 0 <= i < |q| ensures Prec(s2.procs, q[i]) == Prec(s1.procs, q[i]) {
      }
    }
  }

  /** Everything in the ready queue is in use, so re-prioritisation frees and claims no slot. */
  lemma RescheduleAlive(s: System, s1: System)
    requires PlacesOk(s) && Slot(s.running) && Sized(s1) && SameAlive(s.procs, s1.procs)
    requires multiset(s1.ready) == multiset(s.ready) + multiset{s.running}
    ensures SameAlive(s.procs, Reschedule(s1).procs)
  {
    hide SemOcc, TimerProcs, InsertAll;
    forall p | p in s1.ready ensures InUse(s.procs, p) {
      assert p in multiset(s1.ready);
      assert p in Occ(s);
      Member(s, p);
    }
  }

  lemma PreemptReschedule(s: System)
    requires KInv(s) && Slot(s.running) && s.rescheduler + 1 > RESCHEDULER
    ensures KInv(Preempt(s)) && Occ(Preempt(s)) == Occ(s)
  {
    hide Occ, TimerProcs, TimerOk, SemsOk, SortedOk, InsertAll, Insert;
    var s1 := Requeued(s, true, 0);
    RequeuedKeeps(s, true, 0);
    var s2 := Reschedule(s1);
    RescheduleOcc(s1);
    RescheduleAlive(s, s1);
    RescheduleSorted(s, s1);
    RescheduleNonEmpty(s1);
    YieldKeeps(s, s2);
    ScheduleFrame(s2);
    ScheduleSorted(s2);
  }

  lemma RescheduleNonEmpty(s: System)
    requires s.ready != []
    ensures Reschedule(s).ready != []
  {
    hide InsertAll;
    InsertAllMembers(Reschedule(s).procs, [], s.ready);
    assert s.ready[0] in multiset(s.ready);
  }

  lemma PreemptQuantum(s: System)
    requires KInv(s) && Slot(s.running)
    ensures var s' := Schedule(Requeued(s, false, s.rescheduler + 1)); KInv(s') && Occ(s') == Occ(s)
  {
    hide Occ, TimerProcs, TimerOk, SemsOk, SortedOk, Insert;
    var s1 := Requeued(s, false, s.rescheduler + 1);
    RequeuedKeeps(s, false, s.rescheduler + 1);
    YieldKeeps(s, s1);
    ScheduleFrame(s1);
    ScheduleSorted(s1);
  }

  lemma PreemptKeeps(s: System)
    requires KInv(s) && Slot(s.running)
    ensures KInv(Preempt(s)) && Occ(Preempt(s)) == Occ(s)
  {
    hide Occ, TimerOk, SemsOk, SortedOk, Insert, Reschedule, Schedule;
    if s.rescheduler + 1 > RESCHEDULER {
      PreemptReschedule(s);
    } else if s.procs[s.running].tick > QUANTUM {
      PreemptQuantum(s);
    } else {
      PreemptStays(s);
    }
  }

  lemma PreemptStays(s: System)
    requires KInv(s)
    ensures var s' := s.(rescheduler := s.rescheduler + 1); KInv(s') && Occ(s') == Occ(s)
  {
    var s' := s.(rescheduler := s.rescheduler + 1);
    assert Occ(s') == Occ(s);
    hide Occ;
    PlacesFrame(s, s');
    FreeSorted(s, s');
  }

  /** cdriver_t keeps the invariant and loses no process. */
  lemma TickKeeps(s: System)
    requires KInv(s) && Slot(s.running)
    ensures KInv(DoTick(s)) && Occ(DoTick(s)) == Occ(s)
  {
    ExpireKeeps(s);
    BumpKeeps(Expire(s));
    PreemptKeeps(Bump(Expire(s)));
  }

  // ----- the processor is never left idle -----

  lemma ReadySlots(s: System)
    requires PlacesOk(s)
    ensures forall p | p in s.ready :: Slot(p)
  {
    hide SemOcc, TimerProcs;
    forall p | p in s.ready ensures Slot(p) {
      assert p in multiset(s.ready);
      Member(s, p);
    }
  }

  lemma HeadIsMember(q: seq<int>, m: multiset<int>)
    requires q != [] && multiset(q) == m
    ensures q[0] in m
  {
    assert q[0] in q;
  }

  /** After a yield the head of the ready queue runs, which is a process. */
  lemma PreemptRunning(s: System)
    requires KInv(s) && Slot(s.running)
    ensures Slot(Preempt(s).running)
  {
    ReadySlots(s);
    hide KInv, Insert, InsertAll;
    var m := multiset(s.ready) + multiset{s.running};
    if s.rescheduler + 1 > RESCHEDULER {
      var s1 := Requeued(s, true, 0);
      var q := Reschedule(s1).ready;
      InsertMembers(s1.procs, s.ready, s.running);
      RescheduleNonEmpty(s1);
      InsertAllMembers(Reschedule(s1).procs, [], s1.ready);
      HeadIsMember(q, m);
    } else if s.procs[s.running].tick > QUANTUM {
      var q := Insert(s.procs, s.ready, s.running);
      InsertMembers(s.procs, s.ready, s.running);
      HeadIsMember(q, m);
    }
  }
}
