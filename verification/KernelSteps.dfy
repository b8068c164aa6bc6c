/** Each kernel operation against the invariant: it is kept exactly when the operation was permitted. */
module KernelSteps {
  import opened KernelState
  import opened KernelQueues
  import opened KernelInvariant

  // ----- activation and termination -----

  lemma ActivateKeeps(s: System, prec: int)
    requires KInv(s)
    ensures KInv(DoActivate(s, prec))
    ensures s.count < MAXPROCS ==>
              var i := FirstFree(s.procs);
              Slot(i) && Occ(DoActivate(s, prec)) == Occ(s) + multiset{i} && InUse(DoActivate(s, prec).procs, i)
  {
    BusyBound(s.procs);
    if s.count < MAXPROCS {
      var i := FirstFree(s.procs);
      BusyUpdate(s.procs, i, Proc(prec, prec, PRONTO, 0, 0));
      ActivatePlaces(s, prec);
      ActivateSorted(s, prec);
      hide PlacesOk, SortedOk, SemsOk, TimerOk, Occ, Busy, Insert;
    }
  }

  /** The new process is in the ready queue and nowhere else. */
  lemma ActivatePlaces(s: System, prec: int)
    requires PlacesOk(s) && s.count < MAXPROCS && FirstFree(s.procs) < MAXPROCS
    ensures var i, s' := FirstFree(s.procs), DoActivate(s, prec);
            Slot(i) && PlacesOk(s') && Occ(s') == Occ(s) + multiset{i} && InUse(s'.procs, i)
  {
    hide SemOcc, TimerProcs, Insert;
    var i, s' := FirstFree(s.procs), DoActivate(s, prec);
    InsertMembers(s'.procs, s.ready, i);
    assert Occ(s') == Occ(s) + multiset{i};
    hide Occ;
    forall p ensures Occ(s')[p] == if InUse(s'.procs, p) then 1 else 0 {
      assert Occ(s')[p] == Occ(s)[p] + multiset{i}[p];
    }
  }

  /** The new process was in no queue, so giving it a priority disturbs none. */
  lemma ActivateSorted(s: System, prec: int)
    requires PlacesOk(s) && SortedOk(s) && s.count < MAXPROCS && FirstFree(s.procs) < MAXPROCS
    ensures SortedOk(DoActivate(s, prec))
  {
    var i, s' := FirstFree(s.procs), DoActivate(s, prec);
    forall q: seq<int> | Sorted(s.procs, q) && i !in q ensures Sorted(s'.procs, q) {
    }
    assert i !in s.ready by {
      if i in s.ready { Member(s, i); }
    }
    InsertSorted(s'.procs, s.ready, i);
    forall h | 0 <= h < |s.sems| ensures Sorted(s'.procs, s'.sems[h].queue) {
      if i in s.sems[h].queue { SemOccHas(s.sems, h, i); Member(s, i); }
    }
  }

  lemma OccSame(s: System, s': System)
    requires s'.running == s.running && s'.ready == s.ready && s'.timer == s.timer && s'.sems == s.sems
    ensures Occ(s') == Occ(s) && Running(s') == Running(s)
  {
  }

  lemma TerminateKeeps(s: System)
    requires KInv(s) && Slot(s.running) && s.ready != []
    ensures KInv(DoTerminate(s).s)
    ensures Occ(DoTerminate(s).s) + multiset{s.running} == Occ(s)
  {
    hide SortedOk, SemsOk, TimerOk, Occ, Busy, Schedule;
    var s1 := s.(procs := s.procs[s.running := s.procs[s.running].(stato := FREE)], count := s.count - 1);
    var s' := Schedule(s1);
    ReadyHead(s);
    OccSame(s, s1);
    ScheduleOcc(s1);
    ScheduleFrame(s1);
    BusyUpdate(s.procs, s.running, s1.procs[s.running]);
    BusyFrame(s1.procs, s'.procs);
    PlacesLess(s, s', s.running);
    FreeSorted(s, s1);
    ScheduleSorted(s1);
  }

  /** The head of the ready queue is a process in use other than the running one. */
  lemma ReadyHead(s: System)
    requires PlacesOk(s) && s.ready != []
    ensures InUse(s.procs, s.ready[0]) && Slot(s.ready[0]) && s.ready[0] != s.running
    ensures s.running != NONE ==> InUse(s.procs, s.running)
  {
    hide SemOcc, TimerProcs;
    var p := s.ready[0];
    assert multiset(s.ready)[p] >= 1;
    assert Occ(s)[p] >= 1 && (p == s.running && p != NONE ==> Occ(s)[p] >= 2);
    Member(s, p);
    if s.running != NONE {
      assert Occ(s)[s.running] >= 1;
      Member(s, s.running);
    }
  }

  lemma FreeSorted(s: System, s': System)
    requires Sized(s) && SortedOk(s) && SamePrec(s.procs, s'.procs) && s'.ready == s.ready && s'.sems == s.sems
    ensures SortedOk(s')
  {
    SortedFrame(s.procs, s'.procs, s.ready);
    forall h | 0 <= h < |s.sems| ensures Sorted(s'.procs, s'.sems[h].queue) {
      SortedFrame(s.procs, s'.procs, s.sems[h].queue);
    }
  }

  // ----- semaphores -----

  lemma SemIniOcc(s: System, v: int)
    requires Sized(s) && LastFree(s.sems) >= 0
    ensures Occ(DoSemIni(s, v)) + multiset(s.sems[LastFree(s.sems)].queue) == Occ(s)
  {
    hide TimerProcs, SemOcc, Running;
    var i := LastFree(s.sems);
    SemChange(s, DoSemIni(s, v), i);
  }

  /** Only semaphore h changes. */
  lemma SemChange(s: System, s': System, h: int)
    requires 0 <= h < |s.sems| == |s'.sems| && s'.sems == s.sems[h := s'.sems[h]]
    requires s'.running == s.running && s'.ready == s.ready && s'.timer == s.timer
    ensures Occ(s') + multiset(s.sems[h].queue) == Occ(s) + multiset(s'.sems[h].queue)
  {
    hide TimerProcs, SemOcc;
    SemOccUpdate(s.sems, h, s'.sems[h]);
    Regroup(Running(s) + multiset(s.ready) + multiset(TimerProcs(s.timer)), SemOcc(s'.sems), multiset(s.sems[h].queue),
            SemOcc(s.sems), multiset(s'.sems[h].queue));
  }

  /** Whoever waited on a slot that is initialised again is lost. */
  lemma SemIniLoses(s: System, v: int)
    requires PlacesOk(s) && LastFree(s.sems) >= 0 && s.sems[LastFree(s.sems)].queue != []
    ensures !PlacesOk(DoSemIni(s, v))
  {
    hide Occ;
    var q, s' := s.sems[LastFree(s.sems)].queue, DoSemIni(s, v);
    var p := q[0];
    SemIniOcc(s, v);
    assert multiset(q)[p] >= 1;
    assert (Occ(s') + multiset(q))[p] == Occ(s)[p];
    assert InUse(s.procs, p) && InUse(s'.procs, p);
  }

  lemma SemIniPlaces(s: System, v: int)
    requires PlacesOk(s) && LastFree(s.sems) >= 0 && s.sems[LastFree(s.sems)].queue == []
    ensures Occ(DoSemIni(s, v)) == Occ(s) && PlacesOk(DoSemIni(s, v))
  {
    hide Occ;
    SemIniOcc(s, v);
  }

  lemma SemIniKeeps(s: System, v: int)
    requires KInv(s)
    ensures KInv(DoSemIni(s, v)) <==> Permitted(s, SemIni(v))
    ensures Permitted(s, SemIni(v)) ==> Occ(DoSemIni(s, v)) == Occ(s)
  {
    hide Occ, Busy, TimerOk, PlacesOk, Sorted;
    var i, s' := LastFree(s.sems), DoSemIni(s, v);
    SizedOf(s);
    if i >= 0 {
      if s.sems[i].queue != [] {
        SemIniLoses(s, v);
      } else {
        SemIniPlaces(s, v);
        assert SemOk(s'.sems[i]) <==> 0 <= v;
      }
    }
  }

  lemma SizedOf(s: System)
    requires PlacesOk(s)
    ensures Sized(s)
  {
  }

  lemma SemsSorted(s: System, s': System, h: int)
    requires SortedOk(s) && 0 <= h < |s.sems| == |s'.sems| && s'.sems == s.sems[h := s'.sems[h]]
    requires s'.procs == s.procs && Sorted(s.procs, s'.ready) && Sorted(s.procs, s'.sems[h].queue)
    ensures SortedOk(s')
  {
  }

  lemma EnqueuedKeeps(s: System, h: int)
    requires KInv(s) && Slot(s.running) && 0 <= h < |s.sems| && s.sems[h].count <= 0
    ensures Occ(Enqueued(s, h)) == Occ(s) + multiset{s.running} && Sized(Enqueued(s, h))
    ensures SemsOk(Enqueued(s, h).sems) && SortedOk(Enqueued(s, h))
  {
    hide Occ, TimerProcs, TimerOk, Insert, Sorted;
    var s' := Enqueued(s, h);
    assert SemOk(s.sems[h]);
    InsertMembers(s.procs, s.sems[h].queue, s.running);
    SemChange(s, s', h);
    Cancel(Occ(s'), Occ(s) + multiset{s.running}, multiset(s.sems[h].queue));
    InsertSorted(s.procs, s.sems[h].queue, s.running);
    SemsSorted(s, s', h);
  }

  lemma WaitKeeps(s: System, h: int)
    requires KInv(s) && Slot(s.running)
    ensures KInv(DoWait(s, h)) <==> Permitted(s, Wait(h))
    ensures Permitted(s, Wait(h)) ==> Occ(DoWait(s, h)) == Occ(s)
  {
    if 0 <= h < |s.sems| {
      if s.sems[h].count > 0 {
        WaitPasses(s, h);
      } else {
        WaitBlocks(s, h);
      }
    }
  }

  lemma WaitPasses(s: System, h: int)
    requires KInv(s) && 0 <= h < |s.sems| && s.sems[h].count > 0
    ensures KInv(DoWait(s, h)) && Occ(DoWait(s, h)) == Occ(s)
  {
    hide Occ, TimerProcs, TimerOk, Sorted;
    var s' := DoWait(s, h);
    SemChange(s, s', h);
    Cancel(Occ(s'), Occ(s), multiset(s.sems[h].queue));
    PlacesFrame(s, s');
    SemsSorted(s, s', h);
  }

  lemma WaitBlocks(s: System, h: int)
    requires KInv(s) && Slot(s.running) && 0 <= h < |s.sems| && s.sems[h].count <= 0
    ensures KInv(DoWait(s, h)) <==> s.ready != []
    ensures s.ready != [] ==> Occ(DoWait(s, h)) == Occ(s)
  {
    hide Occ, TimerProcs, TimerOk, SortedOk, SemsOk;
    EnqueuedKeeps(s, h);
    BlockKeeps(s, Enqueued(s, h));
  }

  /** Blocking: the running process has been put in a second place, and the scheduler is called. */
  lemma BlockKeeps(s: System, s1: System)
    requires KInv(s) && Slot(s.running) && s1.(sems := s.sems, timer := s.timer) == s
    requires Occ(s1) == Occ(s) + multiset{s.running} && Sized(s1)
    ensures s.ready == [] ==> !PlacesOk(Schedule(s1))
    ensures s.ready != [] ==>
              PlacesOk(Schedule(s1)) && Occ(Schedule(s1)) == Occ(s) && Schedule(s1).count == Busy(Schedule(s1).procs)
    ensures SortedOk(s1) ==> SortedOk(Schedule(s1))
  {
    hide TimerProcs, SemOcc, SortedOk;
    ScheduleFrame(s1);
    RunningOnce(s);
    if SortedOk(s1) { ScheduleSorted(s1); }
    hide Occ;
    if s.ready == [] {
      Duplicated(s1, s.running);
    } else {
      ReadyHead(s);
      ScheduleOcc(s1);
      Cancel(Occ(Schedule(s1)), Occ(s), multiset{s.running});
      PlacesFrame(s, Schedule(s1));
    }
  }

  lemma RunningOnce(s: System)
    requires PlacesOk(s) && Slot(s.running)
    ensures Occ(s)[s.running] == 1
  {
    assert Occ(s)[s.running] >= 1;
  }

  // ----- signal -----

  lemma DequeuedKeeps(s: System, h: int)
    requires KInv(s) && 0 <= h < |s.sems| && s.sems[h].count < 0
    ensures s.sems[h].queue != [] && InUse(s.procs, s.sems[h].queue[0])
    ensures Occ(Dequeued(s, h)) + multiset{s.sems[h].queue[0]} == Occ(s)
    ensures SemsOk(Dequeued(s, h).sems) && SortedOk(Dequeued(s, h))
  {
    hide TimerProcs, TimerOk, SemOcc;
    assert SemOk(s.sems[h]);
    var q := s.sems[h].queue;
    assert q == [q[0]] + q[1..];
    SemOccHas(s.sems, h, q[0]);
    Member(s, q[0]);
    hide Occ;
    SemChange(s, Dequeued(s, h), h);
    Cancel(Occ(Dequeued(s, h)) + multiset{q[0]}, Occ(s), multiset(q[1..]));
    SemsSorted(s, Dequeued(s, h), h);
  }

  /** The woken process enters the ready queue, or takes the processor from the running one, which enters it. */
  lemma ResumeMoves(s: System, p: int)
    requires Sized(s) && Slot(s.running) && Slot(p) && InUse(s.procs, p)
    ensures Occ(Resume(s, p)) == Occ(s) + multiset{p} && Sized(Resume(s, p))
    ensures SameAlive(s.procs, Resume(s, p).procs) && SamePrec(s.procs, Resume(s, p).procs)
  {
    hide TimerProcs, SemOcc, Insert;
    InsertMembers(s.procs, s.ready, s.running);
    InsertMembers(s.procs, s.ready, p);
  }

  lemma ResumeSorted(s: System, p: int)
    requires Sized(s) && Slot(s.running) && Slot(p) && SortedOk(s)
    requires SamePrec(s.procs, Resume(s, p).procs)
    ensures SortedOk(Resume(s, p))
  {
    InsertSorted(s.procs, s.ready, s.running);
    InsertSorted(s.procs, s.ready, p);
    hide Insert, Sorted;
    FreeSorted(s.(ready := Resume(s, p).ready), Resume(s, p));
  }

  lemma SignalWakes(s: System, h: int)
    requires KInv(s) && Slot(s.running) && 0 <= h < |s.sems| && s.sems[h].count < 0
    ensures s.sems[h].queue != [] && DoSignal(s, h) == Resume(Dequeued(s, h), s.sems[h].queue[0])
    ensures KInv(DoSignal(s, h)) && Occ(DoSignal(s, h)) == Occ(s)
  {
    hide Occ, TimerOk, Sorted, SortedOk, SemOcc;
    DequeuedKeeps(s, h);
    var s1, p := Dequeued(s, h), s.sems[h].queue[0];
    ResumeMoves(s1, p);
    ResumeSorted(s1, p);
    PlacesFrame(s, Resume(s1, p));
  }

  lemma SignalKeeps(s: System, h: int)
    requires KInv(s) && Slot(s.running)
    ensures KInv(DoSignal(s, h)) && Occ(DoSignal(s, h)) == Occ(s)
  {
    if 0 <= h < |s.sems| {
      if s.sems[h].count >= 0 {
        SignalPasses(s, h);
      } else {
        SignalWakes(s, h);
      }
    }
  }

  lemma SignalPasses(s: System, h: int)
    requires KInv(s) && 0 <= h < |s.sems| && s.sems[h].count >= 0
    ensures KInv(DoSignal(s, h)) && Occ(DoSignal(s, h)) == Occ(s)
  {
    hide Occ, TimerProcs, TimerOk, Sorted;
    assert SemOk(s.sems[h]);
    var s' := DoSignal(s, h);
    SemChange(s, s', h);
    Cancel(Occ(s'), Occ(s), multiset(s.sems[h].queue));
    PlacesFrame(s, s');
    SemsSorted(s, s', h);
  }

  // ----- delay -----

  lemma DelayKeeps(s: System, n: int)
    requires KInv(s) && Slot(s.running)
    ensures KInv(DoDelay(s, n)) <==> Permitted(s, Delay(n))
    ensures Permitted(s, Delay(n)) ==> Occ(DoDelay(s, n)) == Occ(s)
  {
    hide Occ, TimerProcs, TimerOk, SemsOk, SortedOk, InsertTimer, PlacesOk, Busy, Schedule;
    var r := Request(s.running, Ticks(n));
    var s1 := s.(timer := InsertTimer(s.timer, r));
    SizedOf(s);
    DelayOcc(s, r);
    InsertTimerOk(s.timer, r);
    ScheduleFrame(s1);
    FreeSorted(s, s1);
    BlockKeeps(s, s1);
  }

  lemma DelayOcc(s: System, r: Request)
    requires Sized(s)
    ensures Occ(s.(timer := InsertTimer(s.timer, r))) == Occ(s) + multiset{r.proc}
  {
    hide TimerProcs, SemOcc, InsertTimer;
    InsertTimerMembers(s.timer, r);
  }

  // ----- the timer interrupt -----

  lemma GoKeeps(s: System)
    requires KInv(s) && s.running == NONE
    ensures KInv(Schedule(s)) && Occ(Schedule(s)) == Occ(s)
  {
    if s.ready != [] {
      ReadyHead(s);
      ScheduleOcc(s);
      hide Occ, TimerProcs, TimerOk, SemsOk, SortedOk;
      ScheduleFrame(s);
      PlacesFrame(s, Schedule(s));
      ScheduleSorted(s);
    }
  }

  lemma ExpireOcc(s: System)
    requires Sized(s)
    ensures Occ(Expire(s)) == Occ(s)
  {
    hide SemOcc, TimerProcs, InsertAll, Decremented, NotDue, Due, SetStato;
    var t := Decremented(s.timer);
    DueMembers(s.timer);
    DueMembers(t);
    InsertAllMembers(Expire(s).procs, s.ready, Due(t));
    assert multiset(Expire(s).ready) + multiset(TimerProcs(NotDue(t)))
        == multiset(s.ready) + (multiset(Due(t)) + multiset(TimerProcs(NotDue(t))));
  }
}
