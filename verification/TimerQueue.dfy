/** The linked list of timer requests, des_timer. */
module TimerQueue {
  import opened KernelState

  class Richiesta {
    var pric: Richiesta?
    var proc: int
    var dattesa: int

    constructor (proc: int, dattesa: int)
      ensures this.proc == proc && this.dattesa == dattesa
    {
      this.proc, this.dattesa, pric := proc, dattesa, null;
    }
  }

  class Timers {
    var head: Richiesta?
    ghost var nodes: seq<Richiesta>

    ghost predicate NodeAt(k: int)
      requires 0 <= k < |nodes|
      reads this, nodes
    {
      nodes[k].pric == if k + 1 < |nodes| then nodes[k + 1] else null
    }

    ghost predicate Valid()
      reads this, nodes
    {
      && head == (if nodes == [] then null else nodes[0])
      && (forall k {:trigger NodeAt(k)} | 0 <= k < |nodes| :: NodeAt(k))
      && (forall i, j | 0 <= i < j < |nodes| :: nodes[i] != nodes[j])
    }

    ghost function Contents(): seq<Request>
      reads this, nodes
    {
      seq(|nodes|, k requires 0 <= k < |nodes| reads this, nodes => Request(nodes[k].proc, nodes[k].dattesa))
    }

    constructor ()
      ensures Valid() && Contents() == [] && nodes == []
    {
      head, nodes := null, [];
    }

    /** inserimento_coda_timer */
    method Inserimento(p: Richiesta)
      requires Valid() && p !in nodes
      modifies this, nodes, p
      ensures Valid() && Contents() == InsertTimer(old(Contents()), Request(old(p.proc), old(p.dattesa)))
      ensures nodes != [] && forall x | x in nodes :: x in old(nodes) || x == p
    {
      hide InsertTimer;
      ghost var t := Contents();
      var prec, r;
      ghost var k;
      prec, r, k := Position(p);
      assert Contents() == t;
      ghost var req := Request(p.proc, p.dattesa);
      InsertTimerHere(t, k, req);
      Link(p, prec, r, k);
      assert Contents() == t[..k] + InsertTimer(t[k..], req);
    }

    /** The loop: walks past smaller waits, subtracting them from the new request. */
    method Position(p: Richiesta) returns (prec: Richiesta?, r: Richiesta?, ghost k: nat)
      requires Valid() && p !in nodes
      modifies p`dattesa
      ensures k <= |nodes| && r == (if k < |nodes| then nodes[k] else null)
      ensures prec == (if k == 0 then null else nodes[k - 1])
      ensures r != null ==> p.dattesa <= r.dattesa
      ensures InsertTimer(Contents(), Request(p.proc, old(p.dattesa)))
              == Contents()[..k] + InsertTimer(Contents()[k..], Request(p.proc, p.dattesa))
    {
      hide InsertTimer;
      r, prec, k := head, null, 0;
      ghost var t := Contents();
      assert t[..0] == [] && t[0..] == t;
      while r != null
        invariant k <= |nodes| && r == (if k < |nodes| then nodes[k] else null)
        invariant prec == (if k == 0 then null else nodes[k - 1])
        invariant Contents() == t
        invariant InsertTimer(t, Request(p.proc, old(p.dattesa)))
                  == t[..k] + InsertTimer(t[k..], Request(p.proc, p.dattesa))
        decreases |nodes| - k
      {
        if p.dattesa > r.dattesa {
          InsertTimerOn(t, k, Request(p.proc, p.dattesa));
          assert NodeAt(k);
          p.dattesa := p.dattesa - r.dattesa;
          prec := r;
          r := r.pric;
          k := k + 1;
        } else {
          return;
        }
      }
    }

    /** The pointer updates: p goes between prec and r, whose wait is shortened. */
    method Link(p: Richiesta, prec: Richiesta?, r: Richiesta?, ghost k: nat)
      requires Valid() && p !in nodes && k <= |nodes| && r == (if k < |nodes| then nodes[k] else null)
      requires prec == (if k == 0 then null else nodes[k - 1])
      modifies this, nodes, p`pric
      ensures Valid() && nodes == old(nodes)[..k] + [p] + old(nodes)[k..]
      ensures var t, q := old(Contents()), Request(p.proc, p.dattesa);
              Contents() == t[..k] + [q] +
                            (if k < |t| then [t[k].(dattesa := t[k].dattesa - q.dattesa)] + t[k + 1..] else [])
    {
      p.pric := r;
      if prec == null {
        head := p;
      } else {
        prec.pric := p;
      }
      if r != null {
        r.dattesa := r.dattesa - p.dattesa;
      }
      nodes := nodes[..k] + [p] + nodes[k..];
      forall i | 0 <= i < |nodes| ensures NodeAt(i) {
        if i < k { assert old(NodeAt(i)); } else if i > k { assert old(NodeAt(i - 1)); }
      }
    }

    lemma InsertTimerOn(t: seq<Request>, k: nat, r: Request)
      requires k < |t| && r.dattesa > t[k].dattesa
      ensures t[..k] + InsertTimer(t[k..], r)
              == t[..k + 1] + InsertTimer(t[k + 1..], r.(dattesa := r.dattesa - t[k].dattesa))
    {
      var u, rest := t[k..], InsertTimer(t[k + 1..], r.(dattesa := r.dattesa - t[k].dattesa));
      assert u[0] == t[k] && u[1..] == t[k + 1..];
      assert InsertTimer(u, r) == [t[k]] + rest;
      assert t[..k] + ([t[k]] + rest) == t[..k + 1] + rest;
    }

    lemma InsertTimerHere(t: seq<Request>, k: nat, r: Request)
      requires k <= |t| && (k < |t| ==> r.dattesa <= t[k].dattesa)
      ensures InsertTimer(t[k..], r) ==
              [r] + (if k < |t| then [t[k].(dattesa := t[k].dattesa - r.dattesa)] + t[k + 1..] else [])
    {
      if k < |t| {
        assert t[k..][0] == t[k] && t[k..][1..] == t[k + 1..];
      }
    }

    /** The head request, if there is one, waits one tick less. */
    method Decrement()
      requires Valid()
      modifies nodes
      ensures Valid() && Contents() == Decremented(old(Contents()))
    {
      if head != null {
        head.dattesa := head.dattesa - 1;
        forall k | 0 <= k < |nodes| ensures NodeAt(k) { assert old(NodeAt(k)); }
      }
    }

    /** The head request leaves the queue, and its process is returned. */
    method Pop() returns (proc: int)
      requires Valid() && head != null
      modifies this
      ensures Valid() && old(Contents()) != [] && proc == old(Contents())[0].proc
      ensures Contents() == old(Contents())[1..] && nodes == old(nodes)[1..]
    {
      assert NodeAt(0);
      var p := head;
      head := p.pric;
      proc := p.proc;
      nodes := nodes[1..];
      forall k | 0 <= k < |nodes| ensures NodeAt(k) { assert old(NodeAt(k + 1)); }
    }
  }
}
