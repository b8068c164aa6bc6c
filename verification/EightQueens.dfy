/** The resumable n-queens solver of the EightQueens sample, for any number of queens. */
module EightQueens {
  import opened Arithmetic

  /** Two queens in columns i and j attack each other along a row or a diagonal. */
  predicate Attacks(i: int, a: int, j: int, b: int) {
    a == b || Abs(a - b) == Abs(i - j)
  }

  function Abs(n: int): int {
    if n < 0 then -n else n
  }

  /** The queens of p, one a column, stand in rows 1..n and do not attack each other. */
  ghost predicate Safe(n: nat, p: seq<int>) {
    && (forall i | 0 <= i < |p| :: 1 <= p[i] <= n)
    && (forall i, j | 0 <= i < j < |p| :: !Attacks(i, p[i], j, p[j]))
  }

  ghost predicate Solution(n: nat, b: seq<int>) {
    |b| == n && Safe(n, b)
  }

  /** Lexicographic order on boards and prefixes: the first difference decides, within the shorter length. */
  ghost predicate Less(p: seq<int>, b: seq<int>) {
    exists k :: FirstDifference(p, b, k) && p[k] < b[k]
  }

  predicate FirstDifference(p: seq<int>, b: seq<int>, k: int) {
    0 <= k < |p| && k < |b| && p[..k] == b[..k] && p[k] != b[k]
  }

  lemma LessIrreflexive(p: seq<int>)
    ensures !Less(p, p)
  {
  }

  lemma LessTransitive(a: seq<int>, b: seq<int>, c: seq<int>)
    requires Less(a, b) && Less(b, c) && |a| == |b| == |c|
    ensures Less(a, c)
  {
    var i :| FirstDifference(a, b, i) && a[i] < b[i];
    var j :| FirstDifference(b, c, j) && b[j] < c[j];
    var k := if i < j then i else j;
    assert a[..k] == c[..k] by {
      assert a[..k] == a[..i][..k] && b[..k] == b[..i][..k];
      assert b[..k] == b[..j][..k] && c[..k] == c[..j][..k];
    }
    assert k == i ==> i <= j;
    if i < j {
      assert b[i] == b[..j][i] == c[..j][i] == c[i];
    } else if j < i {
      assert a[j] == a[..i][j] == b[..i][j] == b[j];
    }
    assert FirstDifference(a, c, k);
  }

  /** Boards after the prefix p[..|p|-1] with a last row above v: those that continue with a larger row, or lie
      later. */
  lemma AfterNext(p: seq<int>, v: int, b: seq<int>)
    requires |p| < |b|
    ensures Less(p + [v], b) <==> Less(p, b) || (p == b[..|p|] && v < b[|p|])
  {
    var q := p + [v];
    if Less(q, b) {
      var k :| FirstDifference(q, b, k) && q[k] < b[k];
      if k < |p| {
        assert p[..k] == q[..k];
        assert FirstDifference(p, b, k);
      } else {
        assert q[..k] == p;
      }
    }
    if Less(p, b) {
      var k :| FirstDifference(p, b, k) && p[k] < b[k];
      assert q[..k] == p[..k];
      assert FirstDifference(q, b, k);
    }
    if p == b[..|p|] && v < b[|p|] {
      assert q[..|p|] == p;
      assert FirstDifference(q, b, |p|);
    }
  }

  // ----- frontiers -----

  lemma PrefixSafe(n: nat, b: seq<int>, k: nat)
    requires Safe(n, b) && k <= |b|
    ensures Safe(n, b[..k])
  {
  }

  /** Moving the last queen up to the next safe row skips no solution. */
  lemma AdvanceFrontier(n: nat, q: seq<int>, v0: int, v: int, b: seq<int>)
    requires Solution(n, b) && |q| < n && v0 < v
    requires forall u | v0 < u < v :: !Safe(n, q + [u])
    ensures Less(q + [v0], b) <==> Less(q + [v], b) || q + [v] == b[..|q| + 1]
  {
    AfterNext(q, v0, b);
    AfterNext(q, v, b);
    var k := |q|;
    assert b[..k + 1] == b[..k] + [b[k]];
    PrefixSafe(n, b, k + 1);
    assert q == b[..k] ==> Safe(n, q + [b[k]]);
    if q + [v] == b[..k + 1] {
      assert (q + [v])[..k] == q && b[..k + 1][..k] == b[..k] && (q + [v])[k] == v;
    }
  }

  /** With no safe row left, the solutions after the prefix are those after its beginning. */
  lemma RetreatFrontier(n: nat, q: seq<int>, v0: int, b: seq<int>)
    requires Solution(n, b) && |q| < n
    requires forall u | v0 < u <= n :: !Safe(n, q + [u])
    ensures Less(q + [v0], b) <==> Less(q, b)
  {
    AfterNext(q, v0, b);
    var k := |q|;
    assert b[..k + 1] == b[..k] + [b[k]];
    PrefixSafe(n, b, k + 1);
    assert q == b[..k] ==> Safe(n, q + [b[k]]);
  }

  /** Opening a new column puts all continuations of the prefix after the frontier. */
  lemma OpenColumn(n: nat, p: seq<int>, b: seq<int>)
    requires Solution(n, b) && |p| < n
    ensures Less(p + [0], b) <==> Less(p, b) || p == b[..|p|]
  {
    AfterNext(p, 0, b);
  }

  lemma AdvanceAll(n: nat, q: seq<int>, v0: int, v: int)
    requires |q| < n && v0 < v && forall u | v0 < u < v :: !Safe(n, q + [u])
    ensures forall b | Solution(n, b) :: Less(q + [v0], b) <==> Less(q + [v], b) || q + [v] == b[..|q| + 1]
  {
    forall b | Solution(n, b) ensures Less(q + [v0], b) <==> Less(q + [v], b) || q + [v] == b[..|q| + 1] {
      AdvanceFrontier(n, q, v0, v, b);
    }
  }

  lemma AdvanceOpenAll(n: nat, q: seq<int>, v0: int, v: int)
    requires |q| + 1 < n && v0 < v && forall u | v0 < u < v :: !Safe(n, q + [u])
    ensures forall b | Solution(n, b) :: Less(q + [v0], b) <==> Less(q + [v] + [0], b)
  {
    forall b | Solution(n, b) ensures Less(q + [v0], b) <==> Less(q + [v] + [0], b) {
      AdvanceFrontier(n, q, v0, v, b);
      OpenColumn(n, q + [v], b);
    }
  }

  lemma RetreatAll(n: nat, q: seq<int>, v0: int, v: int)
    requires |q| < n && v0 <= v && n < v && forall u | v0 < u <= n :: !Safe(n, q + [u])
    ensures forall b | Solution(n, b) :: (Less(q + [v0], b) <==> Less(q, b)) && (Less(q + [v], b) <==> Less(q, b))
  {
    forall b | Solution(n, b) ensures (Less(q + [v0], b) <==> Less(q, b)) && (Less(q + [v], b) <==> Less(q, b)) {
      RetreatFrontier(n, q, v0, b);
      AfterNext(q, v, b);
    }
  }

  lemma FirstColumn(n: nat)
    requires 1 <= n
    ensures forall b | Solution(n, b) :: Less([0], b)
  {
    forall b | Solution(n, b) ensures Less([0], b) {
      assert [0] == [] + [0];
      AfterNext([], 0, b);
    }
  }

  // ----- termination -----

  function Left(n: nat, v: int): nat {
    if v <= n then n + 1 - (if v < 0 then 0 else v) else 0
  }

  /** An upper bound on the steps still to be made from frontier p with m columns from its first on. */
  function Rest(n: nat, p: seq<int>, m: nat): nat {
    if p == [] || m == 0 then 0 else Left(n, p[0]) * Pow(n + 2, m - 1) + Rest(n, p[1..], m - 1)
  }

  lemma {:induction false} RestSnoc(n: nat, q: seq<int>, v: int, m: nat)
    requires |q| < m
    ensures Rest(n, q + [v], m) == Rest(n, q, m) + Left(n, v) * Pow(n + 2, m - |q| - 1)
  {
    if q == [] {
      assert ([v])[1..] == [];
    } else {
      assert (q + [v])[1..] == q[1..] + [v];
      RestSnoc(n, q[1..], v, m - 1);
    }
  }

  /** A later row in the same column leaves less, even if the next column is opened. */
  lemma RestAdvances(n: nat, q: seq<int>, v0: int, v: int, m: nat)
    requires |q| < m && 0 <= v0 < v <= n
    ensures Rest(n, q + [v], m) < Rest(n, q + [v0], m)
    ensures |q| + 1 < m ==> Rest(n, q + [v] + [0], m) < Rest(n, q + [v0], m)
  {
    var k := m - |q| - 1;
    RestSnoc(n, q, v0, m);
    RestSnoc(n, q, v, m);
    PowPositive(n + 2, k);
    Scale(n + 1 - v, 1, n + 1 - v0, Pow(n + 2, k));
    if |q| + 1 < m {
      RestSnoc(n, q + [v], 0, m);
      PowPositive(n + 2, k - 1);
      Scale(n + 1, 1, n + 2, Pow(n + 2, k - 1));
    }
  }

  lemma Scale(a: nat, d: nat, b: nat, w: nat)
    requires a + d <= b && 1 <= w
    ensures a * w + d * w <= b * w
  {
    assert (a + d) * w == a * w + d * w;
    assert b * w == (a + d) * w + (b - a - d) * w;
  }

  lemma {:induction false} PowPositive(b: nat, e: nat)
    requires 1 <= b
    ensures 1 <= Pow(b, e)
  {
    if e > 0 { PowPositive(b, e - 1); }
  }

  lemma RestRetreats(n: nat, q: seq<int>, v: int, m: nat)
    requires |q| < m
    ensures Rest(n, q, m) <= Rest(n, q + [v], m)
  {
    RestSnoc(n, q, v, m);
  }

  class Solver {
    const n: nat
    const table: array<int>   // rows of the queens in columns 1..n
    var x: int                // the column being filled
    var solutions: nat

    ghost predicate Valid()
      reads this, table
    {
      && 1 <= n && table.Length == n + 1 && 0 <= x <= n
      && (x == 0 ==> table[0] == 0)
      && (x > 0 ==> 0 <= table[x] && Safe(n, table[1..x]))
    }

    /** The rows chosen so far, the column under work included. */
    ghost function Frontier(): seq<int>
      requires table.Length == n + 1 && 0 <= x <= n
      reads this, table
    {
      table[1..x + 1]
    }

    /** b is still to come. */
    ghost predicate Pending(b: seq<int>)
      requires table.Length == n + 1 && 0 <= x <= n
      reads this, table
    {
      x == 0 || Less(Frontier(), b)
    }

    constructor (n: nat)
      requires 1 <= n
      ensures Valid() && this.n == n && x == 0 && fresh(table)
    {
      this.n := n;
      table := new int[n + 1](_ => 0);
      x, solutions := 0, 0;
    }

    method Initialize()
      requires 1 <= n && table.Length == n + 1
      modifies this, table
      ensures Valid() && x == 0 && solutions == 0
    {
      var i := 0;
      while i <= n
        invariant 0 <= i <= n + 1 && forall j | 0 <= j < i :: table[j] == 0
      {
        table[i] := 0;
        i := i + 1;
      }
      x, solutions := 0, 0;
    }

    /** validPosition: the queen of column x against the columns before it. */
    method ValidPosition() returns (ok: bool)
      requires table.Length == n + 1 && 0 <= x <= n
      requires x > 0 ==> 1 <= table[x] <= n && Safe(n, table[1..x])
      ensures x == 0 ==> ok
      ensures x > 0 ==> (ok <==> Safe(n, table[1..x] + [table[x]]))
    {
      var i := 1;
      while i < x
        invariant 1 <= i && (x > 0 ==> i <= x)
        invariant forall j | 1 <= j < i && j < x :: !Attacks(j, table[j], x, table[x])
      {
        if table[x] == table[i] {
          Attacked(i);
          return false;
        }
        if Abs(table[x] - table[i]) == Abs(x - i) {
          Attacked(i);
          return false;
        }
        i := i + 1;
      }
      if x > 0 { NotAttacked(); }
      return true;
    }

    lemma Attacked(i: int)
      requires table.Length == n + 1 && 1 <= i < x <= n && Attacks(i, table[i], x, table[x])
      ensures !Safe(n, table[1..x] + [table[x]])
    {
      var p := table[1..x] + [table[x]];
      assert p[i - 1] == table[i] && p[x - 1] == table[x];
      assert Attacks(i - 1, p[i - 1], x - 1, p[x - 1]);
    }

    lemma NotAttacked()
      requires table.Length == n + 1 && 1 <= x <= n && 1 <= table[x] <= n && Safe(n, table[1..x])
      requires forall j | 1 <= j < x :: !Attacks(j, table[j], x, table[x])
      ensures Safe(n, table[1..x] + [table[x]])
    {
      var q, p := table[1..x], table[1..x] + [table[x]];
      forall i, j | 0 <= i < j < |p| ensures !Attacks(i, p[i], j, p[j]) {
        if j < x - 1 {
          assert q[i] == p[i] && q[j] == p[j];
        } else {
          assert p[i] == table[i + 1] && !Attacks(i + 1, table[i + 1], x, table[x]);
        }
      }
    }

    /** findPosition: the next safe row of column x. */
    method FindPosition() returns (found: bool)
      requires Valid()
      modifies table
      ensures forall j | 0 <= j <= n && j != x :: table[j] == old(table[j])
      ensures x == 0 ==> found && table[0] == 1
      ensures x > 0 && found ==> old(table[x]) < table[x] <= n && Safe(n, table[1..x] + [table[x]])
      ensures x > 0 ==> old(table[x]) <= table[x]
      ensures x > 0 ==> forall v | old(table[x]) < v < table[x] && v <= n :: !Safe(n, old(table[1..x]) + [v])
      ensures !found ==> table[x] > n
    {
      table[x] := table[x] + 1;
      while table[x] <= n
        invariant old(table[x]) < table[x]
        invariant forall j | 0 <= j <= n && j != x :: table[j] == old(table[j])
        invariant x == 0 ==> table[0] == 1
        invariant x > 0 ==> forall v | old(table[x]) < v < table[x] && v <= n :: !Safe(n, old(table[1..x]) + [v])
        decreases n - table[x]
      {
        assert x > 0 ==> table[1..x] == old(table[1..x]);
        var ok := ValidPosition();
        if ok {
          return true;
        }
        table[x] := table[x] + 1;
      }
      return false;
    }

    /** nextSolution: the least solution still to come, in lexicographic order; false when there is none. */
    method NextSolution() returns (found: bool)
      requires Valid()
      modifies this`x, table
      ensures Valid() && x > 0
      ensures found ==> var b := Frontier(); x == n && Solution(n, b) && old(Pending(b))
      ensures found ==> forall b | Solution(n, b) && old(Pending(b)) :: b == Frontier() || Pending(b)
      ensures found ==> forall b | Solution(n, b) && Pending(b) :: old(Pending(b))
      ensures !found ==> forall b | Solution(n, b) :: !old(Pending(b)) && !Pending(b)
      ensures found && old(x) > 0 ==> Rest(n, Frontier(), n) < Rest(n, old(Frontier()), n)
    {
      hide Less, Solution, Safe, Rest;
      while true
        invariant Valid() && (x == 0 ==> old(x) == 0)
        invariant forall b | Solution(n, b) :: Pending(b) <==> old(Pending(b))
        invariant old(x) > 0 ==> Rest(n, Frontier(), n) <= Rest(n, old(Frontier()), n)
        decreases x == 0, Rest(n, Frontier(), n), x
      {
        ghost var q, v0 := if x == 0 then [] else table[1..x], table[x];
        assert x > 0 ==> Frontier() == q + [v0];
        found := FindPosition();
        assert x > 0 ==> table[1..x] == q && Frontier() == q + [table[x]];
        if found {
          if x == n {
            RestAdvances(n, q, v0, table[x], n);
            AdvanceAll(n, q, v0, table[x]);
            FullFrontier(n, q + [table[x]]);
            return;
          }
          NextColumn(q, v0);
        } else {
          if x == 1 {
            RetreatAll(n, q, v0, table[x]);
            NothingFirst(n, q);
            return;
          }
          Backtrack(q, v0);
        }
      }
    }

    /** Opens the next column: the solutions still to come stay the same, and fewer steps remain. */
    method NextColumn(ghost q: seq<int>, ghost v0: int)
      requires table.Length == n + 1 && 0 <= x < n
      requires x > 0 ==> table[1..x] == q && 0 <= v0 < table[x] <= n && Safe(n, q + [table[x]])
      requires x > 0 ==> forall u | v0 < u < table[x] :: !Safe(n, q + [u])
      modifies this`x, table
      ensures Valid() && x == old(x) + 1
      ensures forall b | Solution(n, b) :: Pending(b) <==> old(x) == 0 || Less(q + [v0], b)
      ensures old(x) > 0 ==> Rest(n, Frontier(), n) < Rest(n, q + [v0], n)
    {
      hide Less, Solution, Safe, Rest;
      ghost var v := table[x];
      x := x + 1;
      table[x] := 0;
      if x == 1 {
        assert Frontier() == [0];
        FirstColumn(n);
        EmptySafe(n, table[1..x]);
      } else {
        RestAdvances(n, q, v0, v, n);
        AdvanceOpenAll(n, q, v0, v);
        assert table[1..x] == q + [v] && Frontier() == q + [v] + [0];
      }
    }

    /** Returns to the previous column: the solutions still to come stay the same, and no more steps remain. */
    method Backtrack(ghost q: seq<int>, ghost v0: int)
      requires table.Length == n + 1 && 2 <= x <= n && table[1..x] == q && Safe(n, q)
      requires v0 <= table[x] && n < table[x] && forall u | v0 < u <= n :: !Safe(n, q + [u])
      modifies this`x
      ensures Valid() && x == old(x) - 1 && Frontier() == q
      ensures forall b | Solution(n, b) :: Pending(b) <==> Less(q + [v0], b)
      ensures Rest(n, Frontier(), n) <= Rest(n, q + [v0], n)
    {
      hide Less, Solution, Safe, Rest;
      RetreatAll(n, q, v0, table[x]);
      RestRetreats(n, q, v0, n);
      x := x - 1;
      SafeRow(n, q, x - 1);
      PrefixSafe(n, q, x - 1);
      assert q[..x - 1] == table[1..x] && q == Frontier();
    }

    lemma SafeRow(n: nat, p: seq<int>, i: int)
      requires Safe(n, p) && 0 <= i < |p|
      ensures 1 <= p[i] <= n
    {
    }

    lemma EmptySafe(n: nat, p: seq<int>)
      requires p == []
      ensures Safe(n, p)
    {
    }

    lemma NothingFirst(n: nat, q: seq<int>)
      requires q == []
      ensures forall b :: !Less(q, b)
    {
    }

    /** A full frontier is a board: nothing but the board itself starts with it. */
    lemma FullFrontier(n: nat, p: seq<int>)
      requires |p| == n && Safe(n, p)
      ensures Solution(n, p) && !Less(p, p) && forall b | Solution(n, b) :: b[..n] == b
    {
      LessIrreflexive(p);
    }

    /** Calls nextSolution from initialize until it returns false: every solution, once, in increasing order. */
    method AllSolutions() returns (all: seq<seq<int>>)
      requires 1 <= n && table.Length == n + 1
      modifies this, table
      ensures forall b :: b in all <==> Solution(n, b)
      ensures forall i, j | 0 <= i < j < |all| :: Less(all[i], all[j])
      ensures solutions == |all|
    {
      hide Less, Solution, Safe, Rest;
      Initialize();
      all := [];
      var found := NextSolution();
      while found
        invariant Valid() && x > 0 && solutions == |all|
        invariant found ==> x == n && Solution(n, Frontier())
        invariant found ==> forall i | 0 <= i < |all| :: Less(all[i], Frontier())
        invariant forall b | b in all :: Solution(n, b)
        invariant forall b | Solution(n, b) :: b in all || (found && b == Frontier()) || Pending(b)
        invariant !found ==> forall b | Solution(n, b) :: !Pending(b)
        invariant forall i, j | 0 <= i < j < |all| :: Less(all[i], all[j])
        decreases found, Rest(n, Frontier(), n)
      {
        var p := table[1..];
        assert p == Frontier();
        all := all + [p];
        solutions := solutions + 1;
        found := NextSolution();
        if found { Later(n, all, p, Frontier()); }
      }
    }

    lemma Later(n: nat, all: seq<seq<int>>, p: seq<int>, b: seq<int>)
      requires |all| > 0 && all[|all| - 1] == p && Less(p, b) && Solution(n, p) && Solution(n, b)
      requires forall i | 0 <= i < |all| :: Solution(n, all[i])
      requires forall i | 0 <= i < |all| - 1 :: Less(all[i], p)
      ensures forall i | 0 <= i < |all| :: Less(all[i], b)
    {
      forall i | 0 <= i < |all| - 1 ensures Less(all[i], b) {
        LessTransitive(all[i], p, b);
      }
    }
  }
}
