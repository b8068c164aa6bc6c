/** What every step of the kernel keeps, and exactly when a step keeps it. */
module KernelInvariant {
  import opened KernelState
  import opened KernelQueues

  // ----- where processes are -----

  ghost function SemOcc(sems: seq<Sem>): multiset<int> {
    if sems == [] then multiset{} else multiset(sems[0].queue) + SemOcc(sems[1..])
  }

  ghost function Running(s: System): multiset<int> {
    if s.running == NONE then multiset{} else multiset{s.running}
  }

  /** How often each process occurs as the running one, in the ready queue, in a semaphore queue or in the timer
      queue. */
  ghost function Occ(s: System): multiset<int> {
    Running(s) + multiset(s.ready) + multiset(TimerProcs(s.timer)) + SemOcc(s.sems)
  }

  function Busy(procs: seq<Proc>): int {
    if procs == [] then 0 else (if procs[0].stato == FREE then 0 else 1) + Busy(procs[1..])
  }

  predicate InUse(procs: seq<Proc>, p: int) {
    0 <= p < |procs| && procs[p].stato != FREE
  }

  ghost predicate Sized(s: System) {
    |s.procs| == MAXPROCS && |s.sems| == MAXSEMS && (s.running == NONE || Slot(s.running))
  }

  /** Every non-FREE process is in exactly one place, and FREE slots are in none. */
  ghost predicate PlacesOk(s: System) {
    Sized(s) && forall p :: Occ(s)[p] == if InUse(s.procs, p) then 1 else 0
  }

  predicate SemOk(m: Sem) {
    if m.count < 0 then |m.queue| == -m.count else m.queue == []
  }

  predicate SemsOk(sems: seq<Sem>) {
    forall h | 0 <= h < |sems| :: SemOk(sems[h])
  }

  predicate SortedOk(s: System) {
    Sorted(s.procs, s.ready) && forall h | 0 <= h < |s.sems| :: Sorted(s.procs, s.sems[h].queue)
  }

  ghost predicate KInv(s: System) {
    PlacesOk(s) && s.count == Busy(s.procs) && SemsOk(s.sems) && TimerOk(s.timer) && SortedOk(s)
  }

  /** What a caller can check before the step: blocking needs a successor, a delay at least one tick, a new semaphore
      a non-negative value and an empty queue. */
  predicate Permitted(s: System, op: Op) {
    match op
    case SemIni(v) => var i := LastFree(s.sems); i == -1 || (0 <= v && s.sems[i].queue == [])
    case Wait(h) => 0 <= h < |s.sems| && s.sems[h].count <= 0 ==> s.ready != []
    case Delay(n) => 50 <= n && s.ready != []
    case _ => true
  }

  // ----- frames -----

  ghost predicate SameAlive(procs: seq<Proc>, procs': seq<Proc>) {
    |procs| == |procs'| && forall p | 0 <= p < |procs| :: procs'[p].stato == FREE <==> procs[p].stato == FREE
  }

  ghost predicate SamePrec(procs: seq<Proc>, procs': seq<Proc>) {
    |procs| == |procs'| && forall p | 0 <= p < |procs| :: procs'[p].prec == procs[p].prec
  }

  lemma {:induction false} BusyFrame(procs: seq<Proc>, procs': seq<Proc>)
    requires SameAlive(procs, procs')
    ensures Busy(procs') == Busy(procs)
  {
    if procs != [] { BusyFrame(procs[1..], procs'[1..]); }
  }

  lemma {:induction false} BusyUpdate(procs: seq<Proc>, i: int, p: Proc)
    requires 0 <= i < |procs|
    ensures Busy(procs[i := p]) - (if p.stato == FREE then 0 else 1)
            == Busy(procs) - (if procs[i].stato == FREE then 0 else 1)
  {
    if i > 0 {
      BusyUpdate(procs[1..], i - 1, p);
      assert procs[i := p][1..] == procs[1..][i - 1 := p];
    } else {
      assert procs[i := p][1..] == procs[1..];
    }
  }

  lemma {:induction false} BusyBound(procs: seq<Proc>)
    ensures 0 <= Busy(procs) <= |procs|
    ensures Busy(procs) == |procs| <==> FirstFree(procs) == |procs|
  {
    if procs != [] { BusyBound(procs[1..]); }
  }

  lemma CountTwice(q: seq<int>, i: int, j: int)
    requires 0 <= i < j < |q|
    ensures q[i] == q[j] ==> multiset(q)[q[i]] >= 2
  {
    assert q == q[..j] + [q[j]] + q[j + 1..];
    assert q[i] in q[..j];
  }

  lemma Regroup(x: multiset<int>, a: multiset<int>, q: multiset<int>, b: multiset<int>, m: multiset<int>)
    requires a + q == b + m
    ensures x + a + q == x + b + m
  {
    assert x + a + q == x + (a + q);
  }

  lemma Cancel(a: multiset<int>, b: multiset<int>, c: multiset<int>)
    requires a + c == b + c
    ensures a == b
  {
    assert a + c - c == a && b + c - c == b;
  }

  /** A process that is not queued in m does not appear when semaphore h becomes m. */
  lemma SemOccAvoids(sems: seq<Sem>, h: int, m: Sem, p: int)
    requires 0 <= h < |sems| && p !in SemOcc(sems) && p !in m.queue
    ensures p !in SemOcc(sems[h := m])
  {
    SemOccUpdate(sems, h, m);
    assert (SemOcc(sems[h := m]) + multiset(sems[h].queue))[p] == (SemOcc(sems) + multiset(m.queue))[p];
  }

  lemma {:induction false} SemOccUpdate(sems: seq<Sem>, h: int, m: Sem)
    requires 0 <= h < |sems|
    ensures SemOcc(sems[h := m]) + multiset(sems[h].queue) == SemOcc(sems) + multiset(m.queue)
  {
    var sems' := sems[h := m];
    assert SemOcc(sems') == multiset(sems'[0].queue) + SemOcc(sems'[1..]);
    if h > 0 {
      SemOccUpdate(sems[1..], h - 1, m);
      assert sems'[1..] == sems[1..][h - 1 := m] && sems[1..][h - 1] == sems[h];
      Regroup(multiset(sems[0].queue), SemOcc(sems'[1..]), multiset(sems[h].queue), SemOcc(sems[1..]),
              multiset(m.queue));
    } else {
      assert sems'[1..] == sems[1..];
    }
  }

  lemma {:induction false} SemOccHas(sems: seq<Sem>, h: int, p: int)
    requires 0 <= h < |sems|
    ensures multiset(sems[h].queue)[p] <= SemOcc(sems)[p]
  {
    if h > 0 { SemOccHas(sems[1..], h - 1, p); }
  }

  lemma PlacesFrame(s: System, s': System)
    requires PlacesOk(s) && Sized(s') && Occ(s') == Occ(s) && SameAlive(s.procs, s'.procs)
    ensures PlacesOk(s') && Busy(s'.procs) == Busy(s.procs)
  {
    BusyFrame(s.procs, s'.procs);
  }

  /** Process r has left the system. */
  lemma PlacesLess(s: System, s': System, r: int)
    requires PlacesOk(s) && Sized(s') && Occ(s') + multiset{r} == Occ(s) && !InUse(s'.procs, r)
    requires forall p | p != r :: InUse(s'.procs, p) == InUse(s.procs, p)
    ensures PlacesOk(s')
  {
    hide Occ;
    assert Occ(s)[r] > 0 && InUse(s.procs, r);
    forall p ensures Occ(s')[p] == if InUse(s'.procs, p) then 1 else 0 {
      assert Occ(s')[p] + multiset{r}[p] == Occ(s)[p];
    }
  }

  lemma SortedFrame(procs: seq<Proc>, procs': seq<Proc>, q: seq<int>)
    requires Sorted(procs, q) && SamePrec(procs, procs')
    ensures Sorted(procs', q)
  {
  }

  /** A member of a queue is alive. */
  lemma Member(s: System, p: int)
    requires PlacesOk(s) && p in Occ(s)
    ensures InUse(s.procs, p) && Slot(p)
  {
    assert Occ(s)[p] > 0;
  }

  // ----- schedulatore -----

  lemma ScheduleFrame(s: System)
    requires Sized(s)
    ensures var s' := Schedule(s);
            s'.sems == s.sems && s'.timer == s.timer && s'.count == s.count && s'.rescheduler == s.rescheduler
            && SamePrec(s.procs, s'.procs)
    ensures s.ready == [] ==> Schedule(s) == s
  {
  }

  /** The outgoing process leaves every queue it is not in already; the head of the ready queue runs. */
  lemma ScheduleOcc(s: System)
    requires Sized(s) && s.ready != [] && Slot(s.ready[0])
    ensures Occ(Schedule(s)) + Running(s) == Occ(s) && Sized(Schedule(s))
    ensures InUse(s.procs, s.ready[0]) ==> SameAlive(s.procs, Schedule(s).procs)
  {
    hide SemOcc, TimerProcs;
    var s' := Schedule(s);
    assert multiset(s.ready) == multiset{s.ready[0]} + multiset(s.ready[1..]) by {
      assert s.ready == [s.ready[0]] + s.ready[1..];
    }
    Moved(Running(s), Running(s'), multiset(s.ready), multiset(s'.ready), multiset(TimerProcs(s.timer)),
          SemOcc(s.sems));
  }

  lemma Moved(r: multiset<int>, r': multiset<int>, q: multiset<int>, q': multiset<int>, t: multiset<int>,
              m: multiset<int>)
    requires q == r' + q'
    ensures r' + q' + t + m + r == r + q + t + m
  {
  }

  lemma ScheduleSorted(s: System)
    requires Sized(s) && SortedOk(s)
    ensures SortedOk(Schedule(s))
  {
    ScheduleFrame(s);
    var s' := Schedule(s);
    SortedFrame(s.procs, s'.procs, s.ready);
    forall h | 0 <= h < |s.sems| ensures Sorted(s'.procs, s'.sems[h].queue) {
      SortedFrame(s.procs, s'.procs, s.sems[h].queue);
    }
  }

  /** When a process is queued twice over, or blocks with nobody ready, the places are wrong. */
  lemma Duplicated(s: System, p: int)
    requires Occ(s)[p] >= 2
    ensures !PlacesOk(s)
  {
  }
}
