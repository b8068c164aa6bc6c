/** The multitasking kernel as a state machine: processes, ready queue, semaphores and the delta timer queue.

    A process is named by its slot in the table desproc; queues are sequences of slots, head first. */
module KernelState {
  import opened Arithmetic

  const NONE := -1
  const MAXPROCS := 20
  const MAXSEMS := 20
  const QUANTUM := 10
  const RESCHEDULER := 50

  datatype Stato = PRONTO | BLOCCATO | RUNNING | FREE

  datatype Proc = Proc(prec: int, baseprec: int, stato: Stato, tick: int, tickTotal: int)

  datatype Sem = Sem(queue: seq<int>, count: int, busy: bool)

  /** A timer request: ticks to wait after the request before it in the queue. */
  datatype Request = Request(proc: int, dattesa: int)

  datatype System = System(procs: seq<Proc>, running: int, ready: seq<int>, sems: seq<Sem>, timer: seq<Request>,
                           count: int, rescheduler: int)

  predicate Slot(p: int) {
    0 <= p < MAXPROCS
  }

  function Prec(procs: seq<Proc>, p: int): int {
    if 0 <= p < |procs| then procs[p].prec else 0
  }

  // ----- process queues -----

  /** inserimento_coda: before the first process of a larger prec, so after its equals. */
  function Insert(procs: seq<Proc>, q: seq<int>, p: int): seq<int> {
    if q == [] then [p]
    else if Prec(procs, p) < Prec(procs, q[0]) then [p] + q
    else [q[0]] + Insert(procs, q[1..], p)
  }

  function InsertAll(procs: seq<Proc>, q: seq<int>, ps: seq<int>): seq<int>
    decreases ps
  {
    if ps == [] then q else InsertAll(procs, Insert(procs, q, ps[0]), ps[1..])
  }

  predicate Sorted(procs: seq<Proc>, q: seq<int>) {
    forall i, j | 0 <= i < j < |q| :: Prec(procs, q[i]) <= Prec(procs, q[j])
  }

  // ----- the timer queue -----

  /** inserimento_coda_timer: walks past smaller waits, subtracting them, and shortens the wait that follows. */
  function InsertTimer(t: seq<Request>, r: Request): seq<Request> {
    if t == [] then [r]
    else if r.dattesa > t[0].dattesa then [t[0]] + InsertTimer(t[1..], r.(dattesa := r.dattesa - t[0].dattesa))
    else [r, t[0].(dattesa := t[0].dattesa - r.dattesa)] + t[1..]
  }

  /** The processes whose requests have run out at the head of the queue. */
  function Due(t: seq<Request>): seq<int> {
    if t != [] && t[0].dattesa == 0 then [t[0].proc] + Due(t[1..]) else []
  }

  function NotDue(t: seq<Request>): seq<Request> {
    if t != [] && t[0].dattesa == 0 then NotDue(t[1..]) else t
  }

  function Decremented(t: seq<Request>): seq<Request> {
    if t == [] then [] else [t[0].(dattesa := t[0].dattesa - 1)] + t[1..]
  }

  function TimerProcs(t: seq<Request>): (r: seq<int>)
    ensures |r| == |t| && forall i | 0 <= i < |t| :: r[i] == t[i].proc
  {
    if t == [] then [] else [t[0].proc] + TimerProcs(t[1..])
  }

  // ----- steps -----

  function SetStato(procs: seq<Proc>, ps: seq<int>, st: Stato): (r: seq<Proc>)
    ensures |r| == |procs|
  {
    seq(|procs|, i requires 0 <= i < |procs| => if i in ps then procs[i].(stato := st) else procs[i])
  }

  /** The update of the outgoing process in schedulatore. */
  function Charged(procs: seq<Proc>, p: int): seq<Proc> {
    if 0 <= p < |procs| then procs[p := procs[p].(tickTotal := procs[p].tickTotal + procs[p].tick)] else procs
  }

  /** schedulatore: the head of the ready queue runs; nothing happens when the queue is empty. */
  function Schedule(s: System): System {
    if s.ready == [] then s
    else
      var procs, next := Charged(s.procs, s.running), s.ready[0];
      s.(procs := if 0 <= next < |procs| then procs[next := procs[next].(stato := RUNNING, tick := 0)] else procs,
         running := next, ready := s.ready[1..])
  }

  function Repriced(p: Proc): Proc {
    p.(prec := p.baseprec + Quotient(p.tickTotal, 10), tickTotal := 0, stato := PRONTO)
  }

  /** reschedule: new priorities for the ready processes, which are queued again in their old order. */
  function Reschedule(s: System): System {
    var procs := seq(|s.procs|, i requires 0 <= i < |s.procs| =>
                       if i in s.ready then Repriced(s.procs[i]) else s.procs[i]);
    s.(procs := procs, ready := InsertAll(procs, [], s.ready))
  }

  function FirstFree(procs: seq<Proc>): (i: int)
    ensures 0 <= i <= |procs|
    ensures i < |procs| ==> procs[i].stato == FREE
    ensures forall j | 0 <= j < i :: procs[j].stato != FREE
  {
    if procs == [] || procs[0].stato == FREE then 0 else 1 + FirstFree(procs[1..])
  }

  /** The last free semaphore: the search does not stop at the first. */
  function LastFree(sems: seq<Sem>): (i: int)
    ensures -1 <= i < |sems|
    ensures i >= 0 ==> !sems[i].busy
    ensures forall j | i < j < |sems| :: sems[j].busy
  {
    if sems == [] then -1 else if !sems[|sems| - 1].busy then |sems| - 1 else LastFree(sems[..|sems| - 1])
  }

  datatype Op =
    Go | Activate(prec: int) | Terminate | SemIni(value: int) | Wait(h: int) | Signal(h: int) | Delay(n: int) | Tick

  datatype Outcome = Alive(s: System) | Halted

  function DoActivate(s: System, prec: int): System {
    var i := FirstFree(s.procs);
    if s.count == MAXPROCS || i == |s.procs| then s
    else
      var procs := s.procs[i := Proc(prec, prec, PRONTO, 0, 0)];
      s.(procs := procs, ready := Insert(procs, s.ready, i), count := s.count + 1)
  }

  function DoTerminate(s: System): Outcome
    requires 0 <= s.running < |s.procs|
  {
    var s1 := s.(procs := s.procs[s.running := s.procs[s.running].(stato := FREE)], count := s.count - 1);
    if s.ready == [] then Halted else Alive(Schedule(s1))
  }

  function DoSemIni(s: System, value: int): System {
    var i := LastFree(s.sems);
    if i == -1 then s else s.(sems := s.sems[i := Sem([], value, true)])
  }

  /** Semaphore h after a wait that blocks the running process. */
  function Enqueued(s: System, h: int): System
    requires 0 <= h < |s.sems|
  {
    s.(sems := s.sems[h := Sem(Insert(s.procs, s.sems[h].queue, s.running), s.sems[h].count - 1, s.sems[h].busy)])
  }

  function DoWait(s: System, h: int): System {
    if !(0 <= h < |s.sems|) then s
    else if s.sems[h].count - 1 >= 0 then s.(sems := s.sems[h := s.sems[h].(count := s.sems[h].count - 1)])
    else Schedule(Enqueued(s, h))
  }

  /** Semaphore h after a signal that wakes the process at the head of its queue. */
  function Dequeued(s: System, h: int): System
    requires 0 <= h < |s.sems| && s.sems[h].queue != []
  {
    s.(sems := s.sems[h := Sem(s.sems[h].queue[1..], s.sems[h].count + 1, s.sems[h].busy)])
  }

  /** A woken process runs at once unless the running one has a smaller prec; the other of the two becomes ready. */
  function Resume(s: System, p: int): System {
    if Prec(s.procs, p) <= Prec(s.procs, s.running) then
      s.(ready := Insert(s.procs, s.ready, s.running), running := p,
         procs := if 0 <= p < |s.procs| then s.procs[p := s.procs[p].(stato := PRONTO)] else s.procs)
    else s.(ready := Insert(s.procs, s.ready, p))
  }

  function DoSignal(s: System, h: int): System {
    if !(0 <= h < |s.sems|) then s
    else
      var m := s.sems[h].(count := s.sems[h].count + 1);
      if m.count > 0 || m.queue == [] then s.(sems := s.sems[h := m])
      else Resume(Dequeued(s, h), m.queue[0])
  }

  function Ticks(n: int): int {
    Quotient(n, 50)
  }

  function DoDelay(s: System, n: int): System {
    Schedule(s.(timer := InsertTimer(s.timer, Request(s.running, Ticks(n)))))
  }

  /** The timer part of cdriver_t. */
  function Expire(s: System): System {
    var t := Decremented(s.timer);
    var procs := SetStato(s.procs, Due(t), PRONTO);
    s.(timer := NotDue(t), procs := procs, ready := InsertAll(procs, s.ready, Due(t)))
  }

  function Bump(s: System): System
    requires 0 <= s.running < |s.procs|
  {
    s.(procs := s.procs[s.running := s.procs[s.running].(tick := s.procs[s.running].tick + 1)])
  }

  /** The scheduling part of cdriver_t. */
  function Preempt(s: System): System
    requires 0 <= s.running < |s.procs|
  {
    if s.rescheduler + 1 > RESCHEDULER then
      var procs := Charged(s.procs, s.running);
      Schedule(Reschedule(s.(rescheduler := 0, procs := procs, ready := Insert(procs, s.ready, s.running))))
    else if s.procs[s.running].tick > QUANTUM then
      Schedule(s.(rescheduler := s.rescheduler + 1, ready := Insert(s.procs, s.ready, s.running)))
    else s.(rescheduler := s.rescheduler + 1)
  }

  function DoTick(s: System): System
    requires 0 <= s.running < |s.procs|
  {
    Preempt(Bump(Expire(s)))
  }

  /** One step.  Boot-time steps have no running process; the others are made by it or interrupt it. */
  function Step(s: System, op: Op): Outcome
    requires CanStep(s, op)
  {
    match op
    case Go => Alive(if s.running == NONE then Schedule(s) else s)
    case Activate(prec) => Alive(DoActivate(s, prec))
    case Terminate => DoTerminate(s)
    case SemIni(v) => Alive(DoSemIni(s, v))
    case Wait(h) => Alive(DoWait(s, h))
    case Signal(h) => Alive(DoSignal(s, h))
    case Delay(n) => Alive(DoDelay(s, n))
    case Tick => Alive(DoTick(s))
  }

  predicate CanStep(s: System, op: Op) {
    op.Go? || op.Activate? || op.SemIni? || 0 <= s.running < |s.procs|
  }

  /** kernel_init, before the idle process is activated. */
  function Blank(): System {
    System(seq(MAXPROCS, _ => Proc(0, 0, FREE, 0, 0)), NONE, [], seq(MAXSEMS, _ => Sem([], 0, false)), [], 0, 0)
  }

  /** kernel_init: the idle process takes slot 0. */
  function Boot(): System {
    DoActivate(Blank(), 3000)
  }
}
