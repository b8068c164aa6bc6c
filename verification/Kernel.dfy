/** The kernel's globals and system calls, updated in place, against the state machine they implement. */
module Kernel {
  import opened Arithmetic
  import opened KernelState
  import opened KernelQueues
  import opened KernelInvariant
  import opened KernelSteps
  import opened ProcessQueue
  import opened TimerQueue

  /** des_sem: coda is the first process of the linked queue. */
  datatype DesSem = DesSem(coda: int, count: int, busy: bool)

  /** The parts of an abstract system that the links encode. */
  ghost predicate Wired(next: seq<int>, pronti: int, codas: seq<DesSem>, ready: seq<int>, waiting: seq<seq<int>>) {
    && |next| == MAXPROCS && |codas| == |waiting| == MAXSEMS
    && Linked(next, pronti, ready) && Distinct(ready)
    && forall h | 0 <= h < MAXSEMS :: QueueOk(next, codas, ready, waiting, h)
  }

  ghost predicate QueueOk(next: seq<int>, codas: seq<DesSem>, ready: seq<int>, waiting: seq<seq<int>>, h: int)
    requires 0 <= h < |codas| == |waiting|
  {
    && Linked(next, codas[h].coda, waiting[h]) && Distinct(waiting[h])
    && (forall x | x in waiting[h] :: x !in ready)
    && (forall g, x | 0 <= g < |waiting| && g != h && x in waiting[h] :: x !in waiting[g])
  }

  /** p is in no process queue. */
  ghost predicate Unqueued(ready: seq<int>, waiting: seq<seq<int>>, p: int) {
    p !in ready && forall h | 0 <= h < |waiting| :: p !in waiting[h]
  }

  function Sems(codas: seq<DesSem>, waiting: seq<seq<int>>): (r: seq<Sem>)
    ensures |r| == |codas|
  {
    seq(|codas|, h requires 0 <= h < |codas| =>
      Sem(if h < |waiting| then waiting[h] else [], codas[h].count, codas[h].busy))
  }

  /** The ready queue gains p, which was in no queue. */
  lemma WiredReady(next: seq<int>, pronti: int, codas: seq<DesSem>, ready: seq<int>, waiting: seq<seq<int>>, p: int,
                   next': seq<int>, pronti': int, ready': seq<int>)
    requires Wired(next, pronti, codas, ready, waiting) && Unqueued(ready, waiting, p) && |next'| == |next|
    requires Linked(next', pronti', ready') && multiset(ready') == multiset(ready) + multiset{p}
    requires forall x | 0 <= x < |next| && x !in ready && x != p :: next'[x] == next[x]
    ensures Wired(next', pronti', codas, ready', waiting)
  {
    forall x ensures x in ready' <==> x in ready || x == p {
      assert x in ready' <==> x in multiset(ready');
    }
    DistinctInsert(ready, p, ready');
    forall h | 0 <= h < MAXSEMS ensures QueueOk(next', codas, ready', waiting, h) {
      assert QueueOk(next, codas, ready, waiting, h);
      LinkedFrame(next, next', codas[h].coda, waiting[h]);
    }
  }

  lemma DistinctInsert(q: seq<int>, p: int, q': seq<int>)
    requires Distinct(q) && p !in q && multiset(q') == multiset(q) + multiset{p}
    ensures Distinct(q')
  {
    forall i, j | 0 <= i < j < |q'| ensures q'[i] != q'[j] {
      CountOnce(q, q'[i]);
      CountTwice(q', i, j);
      assert multiset(q')[q'[i]] == multiset(q)[q'[i]] + multiset{p}[q'[i]];
    }
  }

  lemma {:induction false} CountOnce(q: seq<int>, x: int)
    requires Distinct(q)
    ensures multiset(q)[x] <= 1
  {
    if q != [] {
      assert q == [q[0]] + q[1..];
      CountOnce(q[1..], x);
    }
  }

  /** A process that is running, waits for the timer or is not in use is in no process queue. */
  lemma Elsewhere(s: System, p: int)
    requires PlacesOk(s)
    requires (p == s.running && p != NONE) || p in TimerProcs(s.timer) || !InUse(s.procs, p)
    ensures p !in s.ready && forall h | 0 <= h < |s.sems| :: p !in s.sems[h].queue
  {
    hide SemOcc, TimerProcs;
    assert p in TimerProcs(s.timer) ==> multiset(TimerProcs(s.timer))[p] >= 1;
    assert p in s.ready ==> multiset(s.ready)[p] >= 1;
    assert Occ(s)[p] <= 1;
    forall h | 0 <= h < |s.sems| ensures p !in s.sems[h].queue {
      SemOccHas(s.sems, h, p);
    }
  }

  /** The queue of semaphore g gains p, which was in no queue. */
  lemma WiredWait(next: seq<int>, pronti: int, codas: seq<DesSem>, ready: seq<int>, waiting: seq<seq<int>>,
                  g: int, p: int,
                  next': seq<int>, m: DesSem, q': seq<int>)
    requires Wired(next, pronti, codas, ready, waiting) && Unqueued(ready, waiting, p) && |next'| == |next|
    requires 0 <= g < MAXSEMS && Linked(next', m.coda, q') && multiset(q') == multiset(waiting[g]) + multiset{p}
    requires forall x | 0 <= x < |next| && x !in waiting[g] && x != p :: next'[x] == next[x]
    ensures Wired(next', pronti, codas[g := m], ready, waiting[g := q'])
  {
    assert QueueOk(next, codas, ready, waiting, g);
    forall x ensures x in q' <==> x in waiting[g] || x == p {
      assert x in q' <==> x in multiset(q');
    }
    DistinctInsert(waiting[g], p, q');
    LinkedFrame(next, next', pronti, ready);
    var codas', waiting' := codas[g := m], waiting[g := q'];
    forall h | 0 <= h < MAXSEMS ensures QueueOk(next', codas', ready, waiting', h) {
      assert QueueOk(next, codas, ready, waiting, h);
      if h != g { LinkedFrame(next, next', codas[h].coda, waiting[h]); }
    }
  }

  /** The queue of semaphore g loses its head. */
  lemma WiredWake(next: seq<int>, pronti: int, codas: seq<DesSem>, ready: seq<int>, waiting: seq<seq<int>>, g: int,
                  next': seq<int>, m: DesSem)
    requires Wired(next, pronti, codas, ready, waiting) && |next'| == |next|
    requires 0 <= g < MAXSEMS && waiting[g] != [] && Linked(next', m.coda, waiting[g][1..])
    requires forall x | 0 <= x < |next| && x != waiting[g][0] :: next'[x] == next[x]
    ensures Wired(next', pronti, codas[g := m], ready, waiting[g := waiting[g][1..]])
    ensures Unqueued(ready, waiting[g := waiting[g][1..]], waiting[g][0])
  {
    var p := waiting[g][0];
    assert QueueOk(next, codas, ready, waiting, g);
    assert p in waiting[g];
    LinkedFrame(next, next', pronti, ready);
    var codas', waiting' := codas[g := m], waiting[g := waiting[g][1..]];
    assert forall x | x in waiting'[g] :: x in waiting[g];
    forall h | 0 <= h < MAXSEMS ensures QueueOk(next', codas', ready, waiting', h) && p !in waiting'[h] {
      assert QueueOk(next, codas, ready, waiting, h);
      if h != g { LinkedFrame(next, next', codas[h].coda, waiting[h]); }
    }
  }

  /** The processes of q are distinct and in no process queue. */
  ghost predicate Pending(ready: seq<int>, waiting: seq<seq<int>>, q: seq<int>) {
    Distinct(q) && forall i | 0 <= i < |q| :: Slot(q[i]) && Unqueued(ready, waiting, q[i])
  }

  lemma PendingHead(ready: seq<int>, waiting: seq<seq<int>>, p: int, q: seq<int>)
    requires Pending(ready, waiting, [p] + q)
    ensures Slot(p) && Unqueued(ready, waiting, p)
  {
    assert ([p] + q)[0] == p;
  }

  lemma PendingTail(ready: seq<int>, waiting: seq<seq<int>>, p: int, q: seq<int>, ready': seq<int>)
    requires Pending(ready, waiting, [p] + q) && multiset(ready') == multiset(ready) + multiset{p}
    ensures Pending(ready', waiting, q)
  {
    var pq := [p] + q;
    forall i | 0 <= i < |q| ensures Slot(q[i]) && Unqueued(ready', waiting, q[i]) {
      assert pq[i + 1] == q[i] && pq[0] == p;
      assert q[i] in ready' <==> q[i] in multiset(ready');
    }
    forall i, j | 0 <= i < j < |q| ensures q[i] != q[j] {
      assert pq[i + 1] == q[i] && pq[j + 1] == q[j];
    }
  }

  /** One turn of the release loop: marking p early or late makes no difference to the final table. */
  lemma ReleaseOne(procs: seq<Proc>, p: int, ps: seq<int>)
    requires 0 <= p < |procs|
    ensures SetStato(procs[p := procs[p].(stato := PRONTO)], ps, PRONTO) == SetStato(procs, [p] + ps, PRONTO)
    ensures SamePrec(procs, procs[p := procs[p].(stato := PRONTO)])
  {
  }

  lemma ReleaseQueue(now: seq<Proc>, last: seq<Proc>, q: seq<int>, p: int, rest: seq<int>)
    requires SamePrec(now, last)
    ensures InsertAll(last, Insert(now, q, p), rest) == InsertAll(last, q, [p] + rest)
  {
    InsertFrame(now, last, q, p);
    assert ([p] + rest)[1..] == rest;
  }

  /** The table after the first n processes of q have been given their new priorities. */
  function PartRepriced(procs: seq<Proc>, q: seq<int>, n: nat): (r: seq<Proc>)
    requires n <= |q|
    ensures |r| == |procs|
  {
    seq(|procs|, i requires 0 <= i < |procs| => if i in q[..n] then Repriced(procs[i]) else procs[i])
  }

  lemma PartRepricedNext(procs: seq<Proc>, q: seq<int>, n: nat)
    requires n < |q| && Distinct(q) && 0 <= q[n] < |procs|
    ensures PartRepriced(procs, q, n)[q[n]] == procs[q[n]]
    ensures PartRepriced(procs, q, n + 1) == PartRepriced(procs, q, n)[q[n] := Repriced(procs[q[n]])]
  {
    assert q[..n + 1] == q[..n] + [q[n]];
  }

  /** A duplicate-free sequence of slots has at most MAXPROCS members. */
  lemma AtMostAllSlots(q: seq<int>)
    requires Distinct(q) && forall i | 0 <= i < |q| :: Slot(q[i])
    ensures |q| <= MAXPROCS
  {
    Pigeons(q, MAXPROCS);
  }

  lemma {:induction false} Pigeons(q: seq<int>, n: nat)
    requires Distinct(q) && forall i | 0 <= i < |q| :: 0 <= q[i] < n
    ensures |q| <= n
    decreases n
  {
    assert q != [] ==> 0 <= q[0] < n;
    if q != [] {
      if k :| 0 <= k < |q| && q[k] == n - 1 {
        Pigeons(q[..k] + q[k + 1..], n - 1);
      } else {
        Pigeons(q, n - 1);
      }
    }
  }

  /** A queue taken off the ready list is pending. */
  lemma WiredClear(next: seq<int>, pronti: int, codas: seq<DesSem>, ready: seq<int>, waiting: seq<seq<int>>)
    requires Wired(next, pronti, codas, ready, waiting)
    ensures Wired(next, NONE, codas, [], waiting) && Pending([], waiting, ready)
  {
    forall h | 0 <= h < MAXSEMS ensures QueueOk(next, codas, [], waiting, h) {
      assert QueueOk(next, codas, ready, waiting, h);
    }
    forall i | 0 <= i < |ready| ensures Slot(ready[i]) && Unqueued([], waiting, ready[i]) {
      assert LinkAt(next, ready, i) && ready[i] in ready;
      forall h | 0 <= h < MAXSEMS ensures ready[i] !in waiting[h] {
        assert QueueOk(next, codas, ready, waiting, h);
      }
    }
  }

  class KernelSystem {
    const desproc: array<Proc>
    const next: array<int>
    const dessem: array<DesSem>
    const desTimer: Timers
    var esecuzione: int
    var pronti: int
    var procCount: int
    var rescheduler: int
    ghost var ready: seq<int>
    ghost var waiting: seq<seq<int>>

    ghost predicate Valid()
      reads this, desproc, next, dessem, desTimer, desTimer.nodes
    {
      && desproc.Length == MAXPROCS
      && Wired(next[..], pronti, dessem[..], ready, waiting)
      && desTimer.Valid()
    }

    ghost function View(): System
      reads this, desproc, dessem, desTimer, desTimer.nodes
    {
      System(desproc[..], esecuzione, ready, Sems(dessem[..], waiting), desTimer.Contents(), procCount, rescheduler)
    }

    /** kernel_init before the idle process is activated. */
    constructor ()
      ensures Valid() && View() == Blank()
      ensures fresh(desproc) && fresh(next) && fresh(dessem) && fresh(desTimer) && fresh(desTimer.nodes)
    {
      desproc := new Proc[MAXPROCS](_ => Proc(0, 0, FREE, 0, 0));
      next := new int[MAXPROCS](_ => NONE);
      dessem := new DesSem[MAXSEMS](_ => DesSem(NONE, 0, false));
      desTimer := new Timers();
      esecuzione, pronti, procCount, rescheduler := NONE, NONE, 0, 0;
      ready, waiting := [], seq(MAXSEMS, _ => []);
      new;
      assert View() == Blank();
    }

    /** Process p, queued nowhere, enters the ready queue at the place of its priority. */
    method Pronto(p: int)
      requires Valid() && Slot(p) && Unqueued(ready, waiting, p)
      modifies this`pronti, this`ready, next
      ensures Valid() && ready == Insert(desproc[..], old(ready), p)
    {
      hide Insert, QueueOk, Unqueued;
      assert p !in ready by { NotReady(p); }
      ghost var links, head, q := next[..], pronti, ready;
      pronti := InserimentoCoda(desproc, next, pronti, p, ready);
      ready := Insert(desproc[..], ready, p);
      InsertMembers(desproc[..], q, p);
      WiredReady(links, head, dessem[..], q, waiting, p, next[..], pronti, ready);
    }

    lemma NotReady(p: int)
      requires Unqueued(ready, waiting, p)
      ensures p !in ready
    {
    }

    /** schedulatore */
    method Schedulatore()
      requires Valid() && (esecuzione == NONE || Slot(esecuzione))
      modifies this`esecuzione, this`pronti, this`ready, desproc, next
      ensures Valid() && View() == Schedule(old(View()))
    {
      EmptyHead(next[..], pronti, ready);
      if pronti != NONE {
        if esecuzione != NONE {
          var p := desproc[esecuzione];
          desproc[esecuzione] := p.(tickTotal := p.tickTotal + p.tick);
        }
        assert desproc[..] == Charged(old(desproc[..]), esecuzione);
        esecuzione := pronti;
        desproc[esecuzione] := desproc[esecuzione].(stato := RUNNING, tick := 0);
        assert LinkAt(next[..], ready, 0);
        ghost var links := next[..];
        pronti := next[pronti];
        next[esecuzione] := NONE;
        assert next[..] == links[esecuzione := NONE];
        WiredTail(links, dessem[..], ready, waiting);
        ready := ready[1..];
      }
    }

    lemma WiredTail(links: seq<int>, codas: seq<DesSem>, q: seq<int>, w: seq<seq<int>>)
      requires q != [] && Wired(links, q[0], codas, q, w) && 0 <= q[0] < |links|
      ensures Wired(links[q[0] := NONE], links[q[0]], codas, q[1..], w)
    {
      var links' := links[q[0] := NONE];
      assert LinkAt(links, q, 0);
      forall k | 0 <= k < |q[1..]| ensures LinkAt(links', q[1..], k) {
        assert LinkAt(links, q, k + 1);
      }
      forall h | 0 <= h < MAXSEMS ensures QueueOk(links', codas, q[1..], w, h) {
        assert QueueOk(links, codas, q, w, h);
        LinkedFrame(links, links', codas[h].coda, w[h]);
      }
    }

    lemma UnqueuedNow(p: int)
      requires Valid() && PlacesOk(View())
      requires (p == esecuzione && p != NONE) || p in TimerProcs(View().timer) || !InUse(desproc[..], p)
      ensures Unqueued(ready, waiting, p)
    {
      hide PlacesOk, TimerProcs, Wired;
      Elsewhere(View(), p);
      Lengths();
      forall h | 0 <= h < |waiting| ensures p !in waiting[h] {
        assert View().sems[h].queue == waiting[h];
      }
    }

    lemma Lengths()
      requires Valid()
      ensures next.Length == desproc.Length == MAXPROCS && dessem.Length == |waiting| == MAXSEMS
    {
    }

    // ----- system calls -----

    /** ki_activate_p_level; the stacks and the saved context are not modelled. */
    method Activate(prec: int) returns (idx: int, risu: bool)
      requires Valid() && KInv(View())
      modifies this`procCount, this`pronti, this`ready, desproc, next
      ensures Valid() && View() == DoActivate(old(View()), prec)
      ensures risu == (old(procCount) < MAXPROCS) && (risu ==> idx == FirstFree(old(desproc[..])))
    {
      hide KInv, Wired, Insert, FirstFree, DoActivate, PlacesOk, Unqueued;
      ghost var s := View();
      Counted(s);
      Lengths();
      DoActivateIs(s, prec);
      idx := 0;
      if procCount == MAXPROCS {
        return idx, false;
      }
      procCount := procCount + 1;
      idx := FindFree();
      assert View() == s.(count := s.count + 1);
      FreeUnqueued(s, idx);
      desproc[idx] := Proc(prec, prec, PRONTO, 0, 0);
      assert desproc[..] == s.procs[idx := Proc(prec, prec, PRONTO, 0, 0)];
      Pronto(idx);
      risu := true;
    }

    lemma FreeUnqueued(s: System, p: int)
      requires Valid() && PlacesOk(s) && View() == s.(count := s.count + 1) && Slot(p) && s.procs[p].stato == FREE
      ensures Unqueued(ready, waiting, p)
    {
      Elsewhere(s, p);
      hide PlacesOk, Wired;
      Lengths();
      forall h | 0 <= h < |waiting| ensures p !in waiting[h] {
        assert View().sems[h].queue == waiting[h];
      }
    }

    lemma DoActivateIs(s: System, prec: int)
      requires Sized(s)
      ensures var i := FirstFree(s.procs);
              if s.count == MAXPROCS || i == MAXPROCS then DoActivate(s, prec) == s
              else var procs := s.procs[i := Proc(prec, prec, PRONTO, 0, 0)];
                   DoActivate(s, prec) == s.(procs := procs, ready := Insert(procs, s.ready, i), count := s.count + 1)
    {
    }

    lemma Counted(s: System)
      requires KInv(s)
      ensures PlacesOk(s) && Sized(s) && s.count <= MAXPROCS && (s.count < MAXPROCS <==> FirstFree(s.procs) < MAXPROCS)
    {
      BusyBound(s.procs);
    }

    /** The search for a free slot; there is one. */
    method FindFree() returns (i: int)
      requires desproc.Length == MAXPROCS && FirstFree(desproc[..]) < MAXPROCS
      ensures i == FirstFree(desproc[..]) && Slot(i) && desproc[i].stato == FREE
    {
      i := 0;
      while desproc[i].stato != FREE
        invariant 0 <= i <= FirstFree(desproc[..])
        decreases MAXPROCS - i
      {
        i := i + 1;
      }
    }

    /** ki_terminate_p: halted when no process is left to run. */
    method Terminate() returns (halted: bool)
      requires Valid() && KInv(View()) && Slot(esecuzione)
      modifies this`procCount, this`esecuzione, this`pronti, this`ready, desproc, next
      ensures halted == DoTerminate(old(View())).Halted?
      ensures !halted ==> Valid() && DoTerminate(old(View())) == Outcome.Alive(View())
    {
      hide KInv, Wired;
      ghost var s := View();
      Lengths();
      desproc[esecuzione] := desproc[esecuzione].(stato := FREE);
      assert desproc[..] == s.procs[esecuzione := s.procs[esecuzione].(stato := FREE)];
      procCount := procCount - 1;
      NobodyReady();
      if pronti == NONE {
        return true;
      }
      Schedulatore();
      halted := false;
    }

    lemma NobodyReady()
      requires Valid()
      ensures pronti == NONE <==> ready == []
    {
      EmptyHead(next[..], pronti, ready);
    }

    /** ki_sem_ini; risu is left as the caller had it when a semaphore is found. */
    method SemIni(valore: int, idx0: int, risu0: bool) returns (idx: int, risu: bool)
      requires Valid()
      modifies this`waiting, dessem
      ensures Valid() && View() == DoSemIni(old(View()), valore)
      ensures var i := LastFree(old(View()).sems); idx == (if i == -1 then idx0 else i) && risu == (i != -1 && risu0)
    {
      hide Wired;
      Lengths();
      idx, risu := idx0, risu0;
      ghost var s := View();
      var p := -1;
      var i := 0;
      while i < MAXSEMS
        invariant 0 <= i <= MAXSEMS && -1 <= p < i && idx == (if p == -1 then idx0 else p)
        invariant p >= 0 ==> !dessem[p].busy
        invariant forall j | p < j < i :: dessem[j].busy
      {
        if !dessem[i].busy {
          idx := i;
          p := i;
        }
        i := i + 1;
      }
      LastFreeIs(s.sems, p);
      if p == -1 {
        return idx, false;
      }
      ghost var w := waiting;
      waiting := waiting[p := []];
      dessem[p] := DesSem(NONE, valore, true);
      assert dessem[..] == old(dessem[..])[p := DesSem(NONE, valore, true)];
      WiredEmpty(next[..], pronti, old(dessem[..]), ready, w, p, DesSem(NONE, valore, true));
      assert View().sems == s.sems[p := Sem([], valore, true)];
    }

    lemma LastFreeIs(sems: seq<Sem>, p: int)
      requires -1 <= p < |sems| && (p >= 0 ==> !sems[p].busy) && forall j | p < j < |sems| :: sems[j].busy
      ensures LastFree(sems) == p
    {
    }

    lemma WiredEmpty(links: seq<int>, head: int, codas: seq<DesSem>, q: seq<int>, w: seq<seq<int>>, p: int, m: DesSem)
      requires Wired(links, head, codas, q, w) && 0 <= p < MAXSEMS && m.coda == NONE
      ensures Wired(links, head, codas[p := m], q, w[p := []])
    {
      var codas', w' := codas[p := m], w[p := []];
      forall h | 0 <= h < MAXSEMS ensures QueueOk(links, codas', q, w', h) {
        assert QueueOk(links, codas, q, w, h);
      }
    }

    /** ki_sem_wait */
    method SemWait(hsem: int)
      requires Valid() && PlacesOk(View()) && Slot(esecuzione)
      modifies this`waiting, this`esecuzione, this`pronti, this`ready, desproc, next, dessem
      ensures Valid() && View() == DoWait(old(View()), hsem)
    {
      hide Wired, Insert, PlacesOk, Schedule;
      Lengths();
      if !(0 <= hsem < MAXSEMS) {
        return;
      }
      ghost var s := View();
      UnqueuedNow(esecuzione);
      var m := dessem[hsem].(count := dessem[hsem].count - 1);
      if m.count < 0 {
        Park(hsem, m);
        assert View() == Enqueued(s, hsem);
        Schedulatore();
      } else {
        WiredCount(next[..], pronti, dessem[..], ready, waiting, hsem, m);
        dessem[hsem] := m;
        assert dessem[..] == old(dessem[..])[hsem := m];
        assert View().sems == s.sems[hsem := s.sems[hsem].(count := m.count)];
      }
    }

    /** The running process enters the queue of semaphore h, whose new count is in m. */
    method Park(h: int, m: DesSem)
      requires Valid() && 0 <= h < MAXSEMS && Slot(esecuzione) && Unqueued(ready, waiting, esecuzione)
      requires m.coda == dessem[h].coda
      modifies this`waiting, next, dessem
      ensures Valid() && dessem.Length == |waiting| == |old(waiting)| == MAXSEMS
      ensures waiting == old(waiting)[h := Insert(desproc[..], old(waiting[h]), esecuzione)]
      ensures exists c :: dessem[..] == old(dessem[..])[h := m.(coda := c)]
    {
      hide Wired, Insert, Unqueued;
      Lengths();
      SemQueue(h);
      NotWaiting(h, esecuzione);
      ghost var links, w, codas := next[..], waiting, dessem[..];
      var coda := InserimentoCoda(desproc, next, m.coda, esecuzione, waiting[h]);
      InsertMembers(desproc[..], w[h], esecuzione);
      waiting := w[h := Insert(desproc[..], w[h], esecuzione)];
      dessem[h] := m.(coda := coda);
      assert dessem[..] == codas[h := m.(coda := coda)];
      WiredWait(links, pronti, codas, ready, w, h, esecuzione, next[..], m.(coda := coda), waiting[h]);
    }

    lemma SemQueue(h: int)
      requires Valid() && 0 <= h < MAXSEMS
      ensures dessem.Length == |waiting| == MAXSEMS
      ensures Linked(next[..], dessem[h].coda, waiting[h]) && Distinct(waiting[h])
    {
      assert QueueOk(next[..], dessem[..], ready, waiting, h);
    }

    lemma NotWaiting(h: int, p: int)
      requires Unqueued(ready, waiting, p) && 0 <= h < |waiting|
      ensures p !in waiting[h]
    {
    }

    lemma WiredCount(links: seq<int>, head: int, codas: seq<DesSem>, q: seq<int>, w: seq<seq<int>>, g: int, m: DesSem)
      requires Wired(links, head, codas, q, w) && 0 <= g < MAXSEMS && m.coda == codas[g].coda
      ensures Wired(links, head, codas[g := m], q, w)
    {
      var codas' := codas[g := m];
      forall h | 0 <= h < MAXSEMS ensures QueueOk(links, codas', q, w, h) {
        assert QueueOk(links, codas, q, w, h);
      }
    }

    /** ki_sem_signal; the queue it takes a process from is never empty. */
    method SemSignal(hsem: int)
      requires Valid() && KInv(View()) && Slot(esecuzione)
      modifies this`waiting, this`esecuzione, this`pronti, this`ready, desproc, next, dessem
      ensures Valid() && View() == DoSignal(old(View()), hsem)
    {
      hide Wired, Insert, PlacesOk, KInv;
      Lengths();
      if !(0 <= hsem < MAXSEMS) {
        return;
      }
      ghost var s := View();
      Signalled(s, hsem);
      UnqueuedNow(esecuzione);
      var m := dessem[hsem].(count := dessem[hsem].count + 1);
      if m.count <= 0 {
        var lavoro := Unpark(hsem, m);
        assert View() == Dequeued(s, hsem);
        if desproc[lavoro].prec <= desproc[esecuzione].prec {
          Pronto(esecuzione);
          esecuzione := lavoro;
          desproc[esecuzione] := desproc[esecuzione].(stato := PRONTO);
          assert desproc[..] == s.procs[lavoro := s.procs[lavoro].(stato := PRONTO)];
        } else {
          Pronto(lavoro);
        }
        assert View() == Resume(Dequeued(s, hsem), lavoro);
      } else {
        WiredCount(next[..], pronti, dessem[..], ready, waiting, hsem, m);
        dessem[hsem] := m;
        assert dessem[..] == old(dessem[..])[hsem := m];
        assert View().sems == s.sems[hsem := s.sems[hsem].(count := m.count)];
      }
    }

    lemma Signalled(s: System, h: int)
      requires KInv(s) && 0 <= h < |s.sems|
      ensures PlacesOk(s) && (s.sems[h].count < 0 ==> s.sems[h].queue != [])
    {
      assert SemOk(s.sems[h]);
    }

    /** The head of the queue of semaphore h leaves it; the new count is in m. */
    method Unpark(h: int, m: DesSem) returns (lavoro: int)
      requires Valid() && 0 <= h < MAXSEMS && |waiting| == dessem.Length == MAXSEMS && waiting[h] != []
      requires m.coda == dessem[h].coda
      requires Unqueued(ready, waiting, esecuzione)
      modifies this`waiting, next, dessem
      ensures Valid() && dessem.Length == |waiting| == |old(waiting)| == MAXSEMS
      ensures Slot(lavoro) && lavoro == old(waiting[h])[0] && waiting == old(waiting)[h := old(waiting[h])[1..]]
      ensures exists c :: dessem[..] == old(dessem[..])[h := m.(coda := c)]
      ensures Unqueued(ready, waiting, lavoro) && Unqueued(ready, waiting, esecuzione)
    {
      hide Wired;
      Lengths();
      SemQueue(h);
      EmptyHead(next[..], m.coda, waiting[h]);
      ghost var links, w, codas := next[..], waiting, dessem[..];
      var coda;
      coda, lavoro := RimozioneCoda(next, m.coda, waiting[h]);
      dessem[h] := m.(coda := coda);
      assert dessem[..] == codas[h := m.(coda := coda)];
      WiredWake(links, pronti, codas, ready, w, h, next[..], m.(coda := coda));
      waiting := w[h := w[h][1..]];
      assert forall x | x in waiting[h] :: x in w[h];
    }

    /** ki_delay: C's division rounds toward zero. */
    method Delay(n: int)
      requires Valid() && PlacesOk(View()) && Slot(esecuzione)
      modifies this`esecuzione, this`pronti, this`ready, desproc, next, desTimer, desTimer.nodes
      ensures Valid() && View() == DoDelay(old(View()), n)
      ensures forall x | x in desTimer.nodes :: x in old(desTimer.nodes) || fresh(x)
    {
      hide Wired, PlacesOk, Schedule, InsertTimer;
      Lengths();
      UnqueuedNow(esecuzione);
      var p := new Richiesta(esecuzione, Quotient(n, 50));
      desTimer.Inserimento(p);
      next[esecuzione] := NONE;
      assert next[..] == old(next[..])[esecuzione := NONE];
      WiredElsewhere(old(next[..]), pronti, dessem[..], ready, waiting, esecuzione);
      Schedulatore();
    }

    lemma WiredElsewhere(links: seq<int>, head: int, codas: seq<DesSem>, q: seq<int>, w: seq<seq<int>>, p: int)
      requires Wired(links, head, codas, q, w) && Unqueued(q, w, p) && 0 <= p < |links|
      ensures Wired(links[p := NONE], head, codas, q, w)
    {
      var links' := links[p := NONE];
      LinkedFrame(links, links', head, q);
      forall h | 0 <= h < MAXSEMS ensures QueueOk(links', codas, q, w, h) {
        assert QueueOk(links, codas, q, w, h);
        LinkedFrame(links, links', codas[h].coda, w[h]);
      }
    }

    // ----- the timer interrupt -----

    /** The loop of cdriver_t that releases the processes whose delay has run out. */
    method Release()
      requires Valid() && Pending(ready, waiting, Due(desTimer.Contents()))
      modifies this`pronti, this`ready, desproc, next, desTimer
      ensures Valid()
      ensures var t := old(desTimer.Contents());
              desTimer.Contents() == NotDue(t) && desproc[..] == SetStato(old(desproc[..]), Due(t), PRONTO)
              && ready == InsertAll(desproc[..], old(ready), Due(t))
      ensures forall x | x in desTimer.nodes :: x in old(desTimer.nodes)
    {
      hide Wired, Insert, Unqueued, InsertAll, Distinct, SetStato;
      ghost var procs := SetStato(desproc[..], Due(desTimer.Contents()), PRONTO);
      Released(desproc[..], Due(desTimer.Contents()));
      while desTimer.head != null && desTimer.head.dattesa == 0
        invariant Valid() && Pending(ready, waiting, Due(desTimer.Contents()))
        invariant NotDue(desTimer.Contents()) == NotDue(old(desTimer.Contents()))
        invariant SetStato(desproc[..], Due(desTimer.Contents()), PRONTO) == procs && SamePrec(desproc[..], procs)
        invariant InsertAll(procs, ready, Due(desTimer.Contents()))
                  == InsertAll(procs, old(ready), Due(old(desTimer.Contents())))
        invariant forall x | x in desTimer.nodes :: x in old(desTimer.nodes)
        decreases |desTimer.nodes|
      {
        Lengths();
        ghost var t, q, ps := desTimer.Contents(), ready, desproc[..];
        var proc := desTimer.Pop();
        assert Due(t) == [proc] + Due(t[1..]);
        PendingHead(ready, waiting, proc, Due(t[1..]));
        desproc[proc] := desproc[proc].(stato := PRONTO);
        assert desproc[..] == ps[proc := ps[proc].(stato := PRONTO)];
        ReleaseOne(ps, proc, Due(t[1..]));
        Pronto(proc);
        InsertMembers(desproc[..], q, proc);
        ReleaseQueue(desproc[..], procs, q, proc, Due(t[1..]));
        PendingTail(q, waiting, proc, Due(t[1..]), ready);
      }
      Released(desproc[..], []);
      NoneDue(desTimer.Contents());
      assert InsertAll(procs, ready, []) == ready by { InsertNone(procs, ready); }
    }

    lemma NoneDue(t: seq<Request>)
      requires t == [] || t[0].dattesa != 0
      ensures Due(t) == [] && NotDue(t) == t
    {
    }

    lemma InsertNone(procs: seq<Proc>, q: seq<int>)
      ensures InsertAll(procs, q, []) == q
    {
    }

    lemma Released(procs: seq<Proc>, ps: seq<int>)
      ensures SamePrec(procs, SetStato(procs, ps, PRONTO)) && (ps == [] ==> SetStato(procs, ps, PRONTO) == procs)
    {
    }

    /** reschedule: the ready processes are repriced and collected in pp, then queued again one by one. */
    method RescheduleAll()
      requires Valid()
      modifies this`pronti, this`ready, desproc, next
      ensures Valid() && View() == Reschedule(old(View()))
    {
      hide Wired, Insert, InsertAll, Unqueued, Distinct, PartRepriced, Pending, Reschedule;
      ghost var s, q := View(), ready;
      var pp, n := Collect();
      Cleared(q);
      pronti := NONE;
      ready := [];
      RequeueAll(pp, n, q);
      Repricing(s, desproc[..]);
    }

    lemma Cleared(q: seq<int>)
      requires Valid() && q == ready
      ensures Wired(next[..], NONE, dessem[..], [], waiting) && Pending([], waiting, q)
    {
      WiredClear(next[..], pronti, dessem[..], q, waiting);
    }

    /** The second loop of reschedule: the collected processes are queued in the order in which they were collected. */
    method RequeueAll(pp: array<int>, n: nat, ghost q: seq<int>)
      requires Valid() && pp != next && n <= pp.Length && pp[..n] == q && Pending(ready, waiting, q)
      modifies this`pronti, this`ready, next
      ensures Valid() && ready == InsertAll(desproc[..], old(ready), q)
    {
      hide Wired, Insert, InsertAll, Unqueued, Distinct, Pending;
      var i := 0;
      assert q[0..] == q;
      while i < n
        invariant 0 <= i <= n == |q| && Valid() && Pending(ready, waiting, q[i..])
        invariant InsertAll(desproc[..], ready, q[i..]) == InsertAll(desproc[..], old(ready), q)
        invariant pp[..n] == q
      {
        assert q[i..] == [q[i]] + q[i + 1..] && pp[i] == pp[..n][i];
        Requeue(pp[i], q[i + 1..]);
        i := i + 1;
      }
      assert q[n..] == [];
      InsertNone(desproc[..], ready);
    }

    /** inserimento_coda of one collected process. */
    method Requeue(p: int, ghost rest: seq<int>)
      requires Valid() && Pending(ready, waiting, [p] + rest)
      modifies this`pronti, this`ready, next
      ensures Valid() && Pending(ready, waiting, rest)
      ensures InsertAll(desproc[..], ready, rest) == InsertAll(desproc[..], old(ready), [p] + rest)
    {
      hide Wired, Insert, InsertAll, Unqueued, Distinct, Pending;
      PendingHead(ready, waiting, p, rest);
      ghost var r := ready;
      InsertMembers(desproc[..], r, p);
      Pronto(p);
      ReleaseQueue(desproc[..], desproc[..], r, p, rest);
      PendingTail(r, waiting, p, rest, ready);
    }

    lemma Repricing(s: System, procs: seq<Proc>)
      requires procs == PartRepriced(s.procs, s.ready, |s.ready|)
      ensures Reschedule(s) == s.(procs := procs, ready := InsertAll(procs, [], s.ready))
    {
      assert s.ready[..|s.ready|] == s.ready;
    }

    /** The first loop of reschedule; pp has room for a hundred processes. */
    method Collect() returns (pp: array<int>, n: nat)
      requires Valid()
      modifies desproc
      ensures fresh(pp) && pp.Length == 100 && n == |ready| <= 100 && pp[..n] == ready
      ensures desproc[..] == PartRepriced(old(desproc[..]), ready, n)
    {
      ghost var procs, q := desproc[..], ready;
      ReadyBound();
      EmptyHead(next[..], pronti, q);
      hide Wired, Repriced, PartRepriced;
      pp := new int[100];
      n := 0;
      var p := pronti;
      assert q[..0] == [] && PartRepriced(procs, q, 0) == procs by { NothingRepriced(procs, q); }
      while p != NONE
        invariant 0 <= n <= |q| && p == (if n < |q| then q[n] else NONE) && pp[..n] == q[..n]
        invariant n < |q| ==> q[n] != NONE
        invariant desproc[..] == PartRepriced(procs, q, n)
        decreases |q| - n
      {
        ReadyLink(n);
        PartRepricedNext(procs, q, n);
        desproc[p] := Repriced(desproc[p]);
        assert desproc[..] == PartRepriced(procs, q, n)[p := Repriced(procs[p])];
        pp[n] := p;
        assert pp[..n + 1] == q[..n] + [p] == q[..n + 1];
        n := n + 1;
        p := next[p];
      }
      assert q[..n] == q;
    }

    lemma NothingRepriced(procs: seq<Proc>, q: seq<int>)
      ensures PartRepriced(procs, q, 0) == procs
    {
    }

    lemma ReadyLink(k: int)
      requires Valid() && 0 <= k < |ready|
      ensures Slot(ready[k]) && Distinct(ready) && next.Length == desproc.Length == MAXPROCS
      ensures next[ready[k]] == (if k + 1 < |ready| then ready[k + 1] else NONE)
      ensures k + 1 < |ready| ==> ready[k + 1] != NONE
    {
      assert LinkAt(next[..], ready, k);
      if k + 1 < |ready| { assert LinkAt(next[..], ready, k + 1); }
    }

    lemma ReadyBound()
      requires Valid()
      ensures |ready| <= MAXPROCS && desproc.Length == next.Length == MAXPROCS
    {
      forall i | 0 <= i < |ready| ensures Slot(ready[i]) { assert LinkAt(next[..], ready, i); }
      AtMostAllSlots(ready);
    }

    /** cdriver_t; signals that are pending are not modelled. */
    method Tick()
      requires Valid() && PlacesOk(View()) && Slot(esecuzione)
      modifies this`rescheduler, this`esecuzione, this`pronti, this`ready, desproc, next, desTimer, desTimer.nodes
      ensures Valid() && View() == DoTick(old(View()))
      ensures forall x | x in desTimer.nodes :: x in old(desTimer.nodes)
    {
      hide Wired, PlacesOk, Due, NotDue, Decremented, SetStato, InsertAll, Insert, Preempt;
      ghost var s := View();
      TimersPending(s);
      Lengths();
      desTimer.Decrement();
      Release();
      assert View() == Expire(s);
      desproc[esecuzione] := desproc[esecuzione].(tick := desproc[esecuzione].tick + 1);
      assert View() == Bump(Expire(s)) by {
        assert desproc[..] == Bump(Expire(s)).procs;
      }
      StillRunning(s);
      Quantum();
    }

    lemma StillRunning(s: System)
      requires Valid() && PlacesOk(s) && Slot(s.running) && s.running == esecuzione
      requires Expire(s).ready == ready && Expire(s).sems == View().sems
      ensures Unqueued(ready, waiting, esecuzione)
    {
      ExpireOcc(s);
      RunningOnce(s);
      hide Wired, PlacesOk;
      Lengths();
      RunningOnly(Expire(s));
      forall h | 0 <= h < |waiting| ensures esecuzione !in waiting[h] {
        assert View().sems[h].queue == waiting[h];
      }
    }

    lemma RunningOnly(s: System)
      requires s.running != NONE && Occ(s)[s.running] == 1
      ensures s.running !in s.ready && forall h | 0 <= h < |s.sems| :: s.running !in s.sems[h].queue
    {
      hide SemOcc, TimerProcs;
      assert s.running in s.ready ==> multiset(s.ready)[s.running] >= 1;
      forall h | 0 <= h < |s.sems| ensures s.running !in s.sems[h].queue {
        SemOccHas(s.sems, h, s.running);
      }
    }

    lemma TimersPending(s: System)
      requires Valid() && s == View() && PlacesOk(s)
      ensures Pending(ready, waiting, Due(Decremented(s.timer)))
    {
      DuePending(s);
      hide Wired, PlacesOk;
      Lengths();
      var q := Due(Decremented(s.timer));
      forall i | 0 <= i < |q| ensures Slot(q[i]) && Unqueued(ready, waiting, q[i]) {
        forall h | 0 <= h < |waiting| ensures q[i] !in waiting[h] {
          assert s.sems[h].queue == waiting[h];
        }
      }
    }

    lemma DueDistinct(s: System)
      requires PlacesOk(s)
      ensures Distinct(Due(Decremented(s.timer)))
    {
      hide SemOcc;
      var t := Decremented(s.timer);
      var q := Due(t);
      DueMembers(s.timer);
      DueMembers(t);
      hide Due, Decremented, TimerProcs;
      forall i, j | 0 <= i < j < |q| ensures q[i] != q[j] {
        CountTwice(q, i, j);
        assert Occ(s)[q[i]] <= 1;
      }
    }

    lemma DuePending(s: System)
      requires PlacesOk(s)
      ensures var q := Due(Decremented(s.timer));
              Distinct(q) && forall i | 0 <= i < |q| ::
                Slot(q[i]) && q[i] !in s.ready && forall h | 0 <= h < |s.sems| :: q[i] !in s.sems[h].queue
    {
      hide SemOcc;
      var t := Decremented(s.timer);
      var q := Due(t);
      DueMembers(s.timer);
      DueMembers(t);
      DueDistinct(s);
      hide Due, Decremented, TimerProcs;
      forall i | 0 <= i < |q|
        ensures Slot(q[i]) && q[i] !in s.ready && forall h | 0 <= h < |s.sems| :: q[i] !in s.sems[h].queue
      {
        assert q[i] in multiset(q) && q[i] in multiset(TimerProcs(s.timer));
        Elsewhere(s, q[i]);
        Member(s, q[i]);
      }
    }

    /** The rest of cdriver_t: periodic re-prioritisation, or the end of the quantum. */
    method Quantum()
      requires Valid() && Slot(esecuzione) && Unqueued(ready, waiting, esecuzione)
      modifies this`rescheduler, this`esecuzione, this`pronti, this`ready, desproc, next
      ensures Valid() && View() == Preempt(old(View()))
    {
      hide Wired, Insert, Reschedule, Schedule, Unqueued;
      ghost var s := View();
      Lengths();
      rescheduler := rescheduler + 1;
      if rescheduler > RESCHEDULER {
        rescheduler := 0;
        var p := desproc[esecuzione];
        desproc[esecuzione] := p.(tickTotal := p.tickTotal + p.tick);
        assert desproc[..] == Charged(s.procs, s.running);
        Pronto(esecuzione);
        RescheduleAll();
        Schedulatore();
      } else if desproc[esecuzione].tick > QUANTUM {
        Pronto(esecuzione);
        Schedulatore();
      }
    }

    /** kernel_go, without starting the timer. */
    method Go()
      requires Valid() && (esecuzione == NONE || Slot(esecuzione))
      modifies this`esecuzione, this`pronti, this`ready, desproc, next
      ensures Valid() && Outcome.Alive(View()) == Step(old(View()), Op.Go)
    {
      if esecuzione == NONE {
        Schedulatore();
      }
    }
  }
}
