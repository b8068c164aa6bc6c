/** The priority queues and the delta timer queue against what they are meant to be: a stable sort, and a map from
    process to wake-up time. */
module KernelQueues {
  import opened KernelState

  // ----- priority queues -----

  /** Where Insert puts p: after every process of smaller or equal prec that precedes the first larger one. */
  lemma {:induction false} InsertAt(procs: seq<Proc>, q: seq<int>, p: int) returns (k: int)
    ensures 0 <= k <= |q| && Insert(procs, q, p) == q[..k] + [p] + q[k..]
    ensures forall i | 0 <= i < k :: Prec(procs, q[i]) <= Prec(procs, p)
    ensures k < |q| ==> Prec(procs, p) < Prec(procs, q[k])
  {
    if q == [] || Prec(procs, p) < Prec(procs, q[0]) {
      k := 0;
    } else {
      var j := InsertAt(procs, q[1..], p);
      k := j + 1;
      Splice(q, p, j);
    }
  }

  lemma Splice(q: seq<int>, p: int, j: int)
    requires 0 <= j < |q|
    ensures [q[0]] + (q[1..][..j] + [p] + q[1..][j..]) == q[..j + 1] + [p] + q[j + 1..]
  {
  }

  lemma InsertMembers(procs: seq<Proc>, q: seq<int>, p: int)
    ensures multiset(Insert(procs, q, p)) == multiset(q) + multiset{p}
    ensures |Insert(procs, q, p)| == |q| + 1
  {
    hide Insert;
    var k := InsertAt(procs, q, p);
    SplicedMembers(q, p, k);
  }

  lemma InsertSorted(procs: seq<Proc>, q: seq<int>, p: int)
    requires Sorted(procs, q)
    ensures Sorted(procs, Insert(procs, q, p))
  {
    var k := InsertAt(procs, q, p);
  }

  /** The members of q of one priority, in queue order. */
  function Class(procs: seq<Proc>, q: seq<int>, v: int): seq<int> {
    if q == [] then []
    else (if Prec(procs, q[0]) == v then [q[0]] else []) + Class(procs, q[1..], v)
  }

  lemma {:induction false} ClassConcat(procs: seq<Proc>, a: seq<int>, b: seq<int>, v: int)
    ensures Class(procs, a + b, v) == Class(procs, a, v) + Class(procs, b, v)
  {
    if a == [] {
      assert a + b == b;
    } else {
      assert (a + b)[1..] == a[1..] + b;
      ClassConcat(procs, a[1..], b, v);
      var own := if Prec(procs, a[0]) == v then [a[0]] else [];
      assert Class(procs, a, v) == own + Class(procs, a[1..], v);
      assert Class(procs, a + b, v) == own + Class(procs, a[1..] + b, v);
    }
  }

  lemma {:induction false} ClassEmpty(procs: seq<Proc>, q: seq<int>, v: int)
    requires forall i | 0 <= i < |q| :: Prec(procs, q[i]) != v
    ensures Class(procs, q, v) == []
  {
    if q != [] { ClassEmpty(procs, q[1..], v); }
  }

  /** First in, first out among equals: a new process goes behind the others of its priority. */
  lemma InsertFifo(procs: seq<Proc>, q: seq<int>, p: int, v: int)
    requires Sorted(procs, q)
    ensures Class(procs, Insert(procs, q, p), v) == Class(procs, q, v) + (if Prec(procs, p) == v then [p] else [])
  {
    var k := InsertAt(procs, q, p);
    assert q == q[..k] + q[k..];
    ClassConcat(procs, q[..k], q[k..], v);
    ClassConcat(procs, q[..k] + [p], q[k..], v);
    ClassConcat(procs, q[..k], [p], v);
    if Prec(procs, p) == v { ClassEmpty(procs, q[k..], v); }
  }

  /** inserimento_primo_coda: before the first process of a larger or equal prec, so ahead of its equals. */
  function InsertFirst(procs: seq<Proc>, q: seq<int>, p: int): seq<int> {
    if q == [] then [p]
    else if Prec(procs, p) <= Prec(procs, q[0]) then [p] + q
    else [q[0]] + InsertFirst(procs, q[1..], p)
  }

  lemma {:induction false} InsertFirstAt(procs: seq<Proc>, q: seq<int>, p: int) returns (k: int)
    ensures 0 <= k <= |q| && InsertFirst(procs, q, p) == q[..k] + [p] + q[k..]
    ensures forall i | 0 <= i < k :: Prec(procs, q[i]) < Prec(procs, p)
    ensures k < |q| ==> Prec(procs, p) <= Prec(procs, q[k])
  {
    if q == [] || Prec(procs, p) <= Prec(procs, q[0]) {
      k := 0;
    } else {
      var j := InsertFirstAt(procs, q[1..], p);
      k := j + 1;
      Splice(q, p, j);
    }
  }

  /** inserimento_primo_coda keeps a queue sorted too. */
  lemma InsertFirstSorted(procs: seq<Proc>, q: seq<int>, p: int)
    requires Sorted(procs, q)
    ensures multiset(InsertFirst(procs, q, p)) == multiset(q) + multiset{p}
    ensures Sorted(procs, InsertFirst(procs, q, p))
  {
    hide InsertFirst;
    var k := InsertFirstAt(procs, q, p);
    SplicedMembers(q, p, k);
  }

  lemma SplicedMembers(q: seq<int>, p: int, k: int)
    requires 0 <= k <= |q|
    ensures multiset(q[..k] + [p] + q[k..]) == multiset(q) + multiset{p}
  {
    assert q == q[..k] + q[k..];
  }

  /** Last in, first out among equals: it puts a process ahead of the others of its priority. */
  lemma InsertFirstLifo(procs: seq<Proc>, q: seq<int>, p: int, v: int)
    requires Sorted(procs, q)
    ensures Class(procs, InsertFirst(procs, q, p), v) == (if Prec(procs, p) == v then [p] else []) + Class(procs, q, v)
  {
    var k := InsertFirstAt(procs, q, p);
    var a, own, b := q[..k], if Prec(procs, p) == v then [p] else [], q[k..];
    assert q == a + b;
    if Prec(procs, p) == v { ClassEmpty(procs, a, v); }
    assert Class(procs, [p], v) == own by { assert [p][1..] == []; }
    hide Class, Sorted, InsertFirst;
    ClassConcat(procs, a, b, v);
    ClassConcat(procs, a + [p], b, v);
    ClassConcat(procs, a, [p], v);
  }

  lemma {:induction false} InsertAllMembers(procs: seq<Proc>, q: seq<int>, ps: seq<int>)
    ensures multiset(InsertAll(procs, q, ps)) == multiset(q) + multiset(ps)
    decreases ps
  {
    if ps != [] {
      InsertMembers(procs, q, ps[0]);
      InsertAllMembers(procs, Insert(procs, q, ps[0]), ps[1..]);
      assert ps == [ps[0]] + ps[1..];
    }
  }

  /** Queueing ps behind q is a stable insertion sort. */
  lemma {:induction false} InsertAllSorts(procs: seq<Proc>, q: seq<int>, ps: seq<int>, v: int)
    requires Sorted(procs, q)
    ensures Sorted(procs, InsertAll(procs, q, ps))
    ensures Class(procs, InsertAll(procs, q, ps), v) == Class(procs, q, v) + Class(procs, ps, v)
    decreases ps
  {
    hide Sorted, Insert;
    if ps != [] {
      InsertSorted(procs, q, ps[0]);
      InsertFifo(procs, q, ps[0], v);
      InsertAllSorts(procs, Insert(procs, q, ps[0]), ps[1..], v);
      var own, rest := if Prec(procs, ps[0]) == v then [ps[0]] else [], Class(procs, ps[1..], v);
      assert Class(procs, q, v) + own + rest == Class(procs, q, v) + (own + rest);
    }
  }

  /** Queues depend on the priorities only. */
  lemma {:induction false} InsertFrame(procs: seq<Proc>, procs': seq<Proc>, q: seq<int>, p: int)
    requires Prec(procs, p) == Prec(procs', p) && forall x | x in q :: Prec(procs, x) == Prec(procs', x)
    ensures Insert(procs, q, p) == Insert(procs', q, p)
  {
    if q != [] { InsertFrame(procs, procs', q[1..], p); }
  }

  // ----- the timer queue -----

  /** Requests in range: the head waits at least one tick, the others zero or more after their predecessor. */
  predicate TimerOk(t: seq<Request>) {
    (forall i | 0 <= i < |t| :: 0 <= t[i].dattesa) && (t != [] ==> 1 <= t[0].dattesa)
  }

  predicate DistinctProcs(t: seq<Request>) {
    forall i, j | 0 <= i < j < |t| :: t[i].proc != t[j].proc
  }

  /** When each waiting process is due, in ticks from now, if the queue is walked from time base on. */
  function Wakes(t: seq<Request>, base: int): map<int, int> {
    if t == [] then map[] else Wakes(t[1..], base + t[0].dattesa)[t[0].proc := base + t[0].dattesa]
  }

  /** What is left of a wake-up table n ticks later. */
  function Later(w: map<int, int>, n: int): map<int, int> {
    map p | p in w && w[p] > n :: w[p] - n
  }

  lemma {:induction false} WakesKeys(t: seq<Request>, base: int)
    ensures forall p :: p in Wakes(t, base) <==> p in TimerProcs(t)
  {
    if t != [] { WakesKeys(t[1..], base + t[0].dattesa); }
  }

  /** Inserting a request sets the wake time asked for and leaves every other one alone. */
  lemma {:induction false} InsertTimerRefines(t: seq<Request>, r: Request, base: int)
    requires r.proc !in TimerProcs(t)
    ensures Wakes(InsertTimer(t, r), base) == Wakes(t, base)[r.proc := base + r.dattesa]
    decreases t
  {
    if t == [] {
    } else if r.dattesa > t[0].dattesa {
      var r1 := r.(dattesa := r.dattesa - t[0].dattesa);
      InsertTimerRefines(t[1..], r1, base + t[0].dattesa);
      assert InsertTimer(t, r)[1..] == InsertTimer(t[1..], r1);
    } else {
      var t0 := t[0].(dattesa := t[0].dattesa - r.dattesa);
      assert InsertTimer(t, r)[1..] == [t0] + t[1..];
      assert ([t0] + t[1..])[1..] == t[1..];
    }
  }

  lemma {:induction false} InsertTimerMembers(t: seq<Request>, r: Request)
    ensures multiset(TimerProcs(InsertTimer(t, r))) == multiset(TimerProcs(t)) + multiset{r.proc}
    decreases t
  {
    if t != [] && r.dattesa > t[0].dattesa {
      var r1 := r.(dattesa := r.dattesa - t[0].dattesa);
      InsertTimerMembers(t[1..], r1);
      InsertTimerOn(t, r, r1);
    } else {
      InsertTimerHere(t, r);
    }
  }

  lemma InsertTimerOn(t: seq<Request>, r: Request, r1: Request)
    requires t != [] && r.dattesa > t[0].dattesa && r1 == r.(dattesa := r.dattesa - t[0].dattesa)
    ensures TimerProcs(InsertTimer(t, r)) == [t[0].proc] + TimerProcs(InsertTimer(t[1..], r1))
    ensures TimerProcs(t) == [t[0].proc] + TimerProcs(t[1..])
  {
    assert InsertTimer(t, r)[1..] == InsertTimer(t[1..], r1);
  }

  lemma InsertTimerHere(t: seq<Request>, r: Request)
    requires t == [] || r.dattesa <= t[0].dattesa
    ensures TimerProcs(InsertTimer(t, r)) == [r.proc] + TimerProcs(t)
  {
  }

  /** The queue stays in range exactly when the new wait is at least one tick. */
  lemma {:induction false} InsertTimerOk(t: seq<Request>, r: Request)
    requires TimerOk(t)
    ensures TimerOk(InsertTimer(t, r)) <==> 1 <= r.dattesa
  {
    if r.dattesa >= 1 {
      InsertTimerNonNegative(t, r);
    } else {
      assert InsertTimer(t, r)[0] == r;
    }
  }

  lemma {:induction false} InsertTimerNonNegative(t: seq<Request>, r: Request)
    requires 1 <= r.dattesa && forall i | 0 <= i < |t| :: 0 <= t[i].dattesa
    ensures forall i | 0 <= i < |InsertTimer(t, r)| :: 0 <= InsertTimer(t, r)[i].dattesa
    ensures t != [] && 1 <= t[0].dattesa ==> 1 <= InsertTimer(t, r)[0].dattesa
    ensures t == [] ==> 1 <= InsertTimer(t, r)[0].dattesa
    decreases t
  {
    if t != [] && r.dattesa > t[0].dattesa {
      InsertTimerNonNegative(t[1..], r.(dattesa := r.dattesa - t[0].dattesa));
    }
  }

  /** One tick releases exactly the processes due at time 1, in queue order, and brings the others one tick nearer. */
  lemma TickRefines(t: seq<Request>)
    requires TimerOk(t) && DistinctProcs(t)
    ensures var t1 := Decremented(t);
            && Wakes(NotDue(t1), 0) == Later(Wakes(t, 0), 1)
            && (forall p :: p in Due(t1) <==> p in Wakes(t, 0) && Wakes(t, 0)[p] == 1)
            && TimerOk(NotDue(t1))
  {
    var t1 := Decremented(t);
    if t != [] {
      assert t1[1..] == t[1..];
      WakesShift(t[1..], t[0].dattesa, t[0].dattesa - 1);
      assert Wakes(t1, 0) == Wakes(t[1..], t[0].dattesa - 1)[t[0].proc := t[0].dattesa - 1];
    }
    var w, w1 := Wakes(t, 0), Wakes(t1, 0);
    assert forall p :: (p in w1 <==> p in w) && (p in w ==> w1[p] == w[p] - 1);
    assert Later(w1, 0) == Later(w, 1);
    DueRefines(t1);
  }

  lemma {:induction false} WakesShift(t: seq<Request>, a: int, b: int)
    ensures forall p :: p in Wakes(t, a) <==> p in Wakes(t, b)
    ensures forall p | p in Wakes(t, a) :: Wakes(t, a)[p] - a == Wakes(t, b)[p] - b
  {
    if t != [] { WakesShift(t[1..], a + t[0].dattesa, b + t[0].dattesa); }
  }

  lemma {:induction false} WakesAtLeast(t: seq<Request>, base: int)
    requires forall i | 0 <= i < |t| :: 0 <= t[i].dattesa
    ensures forall p | p in Wakes(t, base) :: base <= Wakes(t, base)[p]
    ensures t != [] && 1 <= t[0].dattesa ==> forall p | p in Wakes(t, base) :: base < Wakes(t, base)[p]
  {
    if t != [] { WakesAtLeast(t[1..], base + t[0].dattesa); }
  }

  /** Due and NotDue split a queue of non-negative waits into the processes at time 0 and the later ones. */
  lemma {:induction false} DueRefines(t: seq<Request>)
    requires (forall i | 0 <= i < |t| :: 0 <= t[i].dattesa) && DistinctProcs(t)
    ensures Wakes(NotDue(t), 0) == Later(Wakes(t, 0), 0)
    ensures forall p :: p in Due(t) <==> p in Wakes(t, 0) && Wakes(t, 0)[p] == 0
    ensures TimerOk(NotDue(t))
  {
    WakesAtLeast(t, 0);
    var w := Wakes(t, 0);
    if t != [] && t[0].dattesa == 0 {
      DueRefines(t[1..]);
      WakesKeys(t[1..], 0);
      var rest := Wakes(t[1..], 0);
      assert t[0].proc !in TimerProcs(t[1..]);
      assert w == rest[t[0].proc := 0];
      assert forall p :: p in Later(w, 0) <==> p in Later(rest, 0);
      assert Later(w, 0) == Later(rest, 0);
    } else {
      assert forall p | p in w :: 0 < w[p];
      assert forall p :: p in Later(w, 0) <==> p in w;
      assert Later(w, 0) == w;
    }
  }

  lemma {:induction false} DueMembers(t: seq<Request>)
    ensures multiset(Due(t)) + multiset(TimerProcs(NotDue(t))) == multiset(TimerProcs(t))
    ensures TimerProcs(Decremented(t)) == TimerProcs(t)
  {
    if t != [] {
      assert Decremented(t)[1..] == t[1..];
      if t[0].dattesa == 0 { DueMembers(t[1..]); }
    }
  }
}
