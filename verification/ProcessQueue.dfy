/** Process queues as the kernel links them: through the next word of each process. */
module ProcessQueue {
  import opened KernelState
  import opened KernelQueues

  ghost predicate LinkAt(next: seq<int>, q: seq<int>, k: int)
    requires 0 <= k < |q|
  {
    0 <= q[k] < |next| && next[q[k]] == if k + 1 < |q| then q[k + 1] else NONE
  }

  /** The list that starts at head is q. */
  ghost predicate Linked(next: seq<int>, head: int, q: seq<int>) {
    && head == (if q == [] then NONE else q[0])
    && (forall k {:trigger LinkAt(next, q, k)} | 0 <= k < |q| :: LinkAt(next, q, k))
  }

  ghost predicate Distinct(q: seq<int>) {
    forall i, j | 0 <= i < j < |q| :: q[i] != q[j]
  }

  lemma LinkedFrame(next: seq<int>, next': seq<int>, head: int, q: seq<int>)
    requires Linked(next, head, q) && |next'| == |next|
    requires forall x | x in q && 0 <= x < |next| :: next'[x] == next[x]
    ensures Linked(next', head, q)
  {
    forall k | 0 <= k < |q| ensures LinkAt(next', q, k) {
      assert LinkAt(next, q, k) && q[k] in q;
    }
  }

  lemma EmptyHead(next: seq<int>, head: int, q: seq<int>)
    requires Linked(next, head, q)
    ensures head == NONE <==> q == []
    ensures q != [] ==> 0 <= head < |next|
  {
    if q != [] { assert LinkAt(next, q, 0); }
  }

  /** Linking p between positions k-1 and k. */
  lemma LinkedInsert(next: seq<int>, head: int, q: seq<int>, k: int, p: int, next': seq<int>, head': int)
    requires Linked(next, head, q) && Distinct(q) && p !in q && 0 <= p < |next| && 0 <= k <= |q|
    requires var mid := next[p := if k < |q| then q[k] else NONE];
             if k == 0 then next' == mid && head' == p
             else 0 <= q[k - 1] < |next| && next' == mid[q[k - 1] := p] && head' == head
    ensures Linked(next', head', q[..k] + [p] + q[k..])
  {
    var q' := q[..k] + [p] + q[k..];
    forall i | 0 <= i < |q'| ensures LinkAt(next', q', i) {
      if i < k {
        assert LinkAt(next, q, i) && q[i] in q;
      } else if i > k {
        assert LinkAt(next, q, i - 1) && q[i - 1] in q;
      }
    }
  }

  /** Insert puts p at any position that separates the smaller and equal priorities from a larger one. */
  lemma {:induction false} InsertIs(procs: seq<Proc>, q: seq<int>, p: int, k: nat)
    requires k <= |q| && forall i | 0 <= i < k :: Prec(procs, q[i]) <= Prec(procs, p)
    requires k < |q| ==> Prec(procs, p) < Prec(procs, q[k])
    ensures Insert(procs, q, p) == q[..k] + [p] + q[k..]
  {
    if k > 0 {
      InsertIs(procs, q[1..], p, k - 1);
      assert q[1..][..k - 1] == q[1..k] && q[1..][k - 1..] == q[k..];
      assert [q[0]] + q[1..k] == q[..k];
    }
  }

  /** inserimento_coda: returns the new head of the queue. */
  method InserimentoCoda(desproc: array<Proc>, next: array<int>, coda: int, p: int, ghost q: seq<int>)
    returns (coda': int)
    requires Linked(next[..], coda, q) && Distinct(q) && next.Length == desproc.Length
    requires p == NONE || (0 <= p < next.Length && p !in q)
    modifies next
    ensures p == NONE ==> coda' == coda && next[..] == old(next[..])
    ensures p != NONE ==> Linked(next[..], coda', Insert(desproc[..], q, p))
    ensures forall x | 0 <= x < next.Length && x !in q && x != p :: next[x] == old(next[x])
  {
    if p == NONE {
      return coda;
    }
    ghost var links := next[..];
    ghost var k := 0;
    var prec, r := NONE, coda;
    if q != [] { assert LinkAt(links, q, 0); }
    while r != NONE
      invariant 0 <= k <= |q| && r == (if k < |q| then q[k] else NONE) && prec == (if k == 0 then NONE else q[k - 1])
      invariant forall i | 0 <= i < k :: Prec(desproc[..], q[i]) <= Prec(desproc[..], p)
      invariant k < |q| ==> 0 <= q[k] < next.Length
      invariant k > 0 ==> 0 <= q[k - 1] < next.Length
      invariant next[..] == links
      decreases |q| - k
    {
      assert LinkAt(links, q, k);
      if desproc[p].prec < desproc[r].prec {
        break;
      }
      if k + 1 < |q| { assert LinkAt(links, q, k + 1); }
      prec := r;
      r := next[r];
      k := k + 1;
    }
    InsertIs(desproc[..], q, p, k);
    next[p] := r;
    if prec != NONE {
      next[prec] := p;
      coda' := coda;
    } else {
      coda' := p;
    }
    assert next[..] == (if k == 0 then links[p := r] else links[p := r][q[k - 1] := p]);
    LinkedInsert(links, coda, q, k, p, next[..], coda');
  }

  lemma {:induction false} InsertFirstIs(procs: seq<Proc>, q: seq<int>, p: int, k: nat)
    requires k <= |q| && forall i | 0 <= i < k :: Prec(procs, q[i]) < Prec(procs, p)
    requires k < |q| ==> Prec(procs, p) <= Prec(procs, q[k])
    ensures InsertFirst(procs, q, p) == q[..k] + [p] + q[k..]
  {
    if k > 0 {
      InsertFirstIs(procs, q[1..], p, k - 1);
      assert q[1..][..k - 1] == q[1..k] && q[1..][k - 1..] == q[k..];
      assert [q[0]] + q[1..k] == q[..k];
    }
  }

  /** inserimento_primo_coda: the same walk, stopping at an equal priority already. */
  method InserimentoPrimoCoda(desproc: array<Proc>, next: array<int>, coda: int, p: int, ghost q: seq<int>)
    returns (coda': int)
    requires Linked(next[..], coda, q) && Distinct(q) && next.Length == desproc.Length
    requires p == NONE || (0 <= p < next.Length && p !in q)
    modifies next
    ensures p == NONE ==> coda' == coda && next[..] == old(next[..])
    ensures p != NONE ==> Linked(next[..], coda', InsertFirst(desproc[..], q, p))
    ensures forall x | 0 <= x < next.Length && x !in q && x != p :: next[x] == old(next[x])
  {
    if p == NONE {
      return coda;
    }
    ghost var links := next[..];
    ghost var k := 0;
    var prec, r := NONE, coda;
    if q != [] { assert LinkAt(links, q, 0); }
    while r != NONE
      invariant 0 <= k <= |q| && r == (if k < |q| then q[k] else NONE) && prec == (if k == 0 then NONE else q[k - 1])
      invariant forall i | 0 <= i < k :: Prec(desproc[..], q[i]) < Prec(desproc[..], p)
      invariant k < |q| ==> 0 <= q[k] < next.Length
      invariant k > 0 ==> 0 <= q[k - 1] < next.Length
      invariant next[..] == links
      decreases |q| - k
    {
      assert LinkAt(links, q, k);
      if desproc[p].prec <= desproc[r].prec {
        break;
      }
      if k + 1 < |q| { assert LinkAt(links, q, k + 1); }
      prec := r;
      r := next[r];
      k := k + 1;
    }
    InsertFirstIs(desproc[..], q, p, k);
    next[p] := r;
    if prec != NONE {
      next[prec] := p;
      coda' := coda;
    } else {
      coda' := p;
    }
    assert next[..] == (if k == 0 then links[p := r] else links[p := r][q[k - 1] := p]);
    LinkedInsert(links, coda, q, k, p, next[..], coda');
  }

  /** rimozione_coda: takes the head, if there is one. */
  method RimozioneCoda(next: array<int>, coda: int, ghost q: seq<int>) returns (coda': int, p: int)
    requires Linked(next[..], coda, q) && Distinct(q)
    modifies next
    ensures p == coda && (q == [] ==> coda' == NONE && p == NONE)
    ensures q != [] ==> p == q[0] && Linked(next[..], coda', q[1..])
    ensures forall x | 0 <= x < next.Length && x != p :: next[x] == old(next[x])
  {
    p := coda;
    EmptyHead(next[..], coda, q);
    if coda == NONE {
      return coda, p;
    }
    ghost var links := next[..];
    assert LinkAt(links, q, 0);
    coda' := next[coda];
    next[p] := NONE;
    forall k | 0 <= k < |q[1..]| ensures LinkAt(next[..], q[1..], k) {
      assert LinkAt(links, q, k + 1);
    }
  }
}
