/** The dragon-curve generator of the OneDragon sample: the folded direction array and the pen. */
module OneDragon {
  import opened Arithmetic

  /** The directions turned clockwise by a quarter, in reverse order: the second half of a fold. */
  function Folded(s: seq<int>): (r: seq<int>)
    ensures |r| == |s| && forall t | 0 <= t < |s| :: r[t] == (s[|s| - 1 - t] + 1) % 4
  {
    if s == [] then [] else [(s[|s| - 1] + 1) % 4] + Folded(s[..|s| - 1])
  }

  /** The curve after n folds of one segment to the right. */
  function Curve(n: nat): (r: seq<int>)
    ensures |r| == Pow2(n) && forall t | 0 <= t < |r| :: 0 <= r[t] < 4
  {
    if n == 0 then [1] else Curve(n - 1) + Folded(Curve(n - 1))
  }

  // ----- the direction of segment k -----

  /** The number of places where two neighbouring bits of k differ. */
  function GrayWeight(k: nat): nat {
    if k == 0 then 0 else (if k % 2 != (k / 2) % 2 then 1 else 0) + GrayWeight(k / 2)
  }

  /** Exclusive or, bit by bit. */
  function Xor(a: nat, b: nat): nat
    decreases a + b
  {
    if a == 0 && b == 0 then 0 else 2 * Xor(a / 2, b / 2) + if a % 2 != b % 2 then 1 else 0
  }

  /** How many bits of n are one. */
  function Ones(n: nat): nat {
    if n == 0 then 0 else n % 2 + Ones(n / 2)
  }

  lemma {:induction false} GrayWeightIsOnes(k: nat)
    ensures GrayWeight(k) == Ones(Xor(k, k / 2))
  {
    if k > 0 {
      GrayWeightIsOnes(k / 2);
      var x, bit := Xor(k / 2, k / 2 / 2), if k % 2 != (k / 2) % 2 then 1 else 0;
      assert Xor(k, k / 2) == 2 * x + bit;
      OnesOfDouble(x, bit);
    }
  }

  lemma OnesOfDouble(x: nat, bit: nat)
    requires bit <= 1
    ensures Ones(2 * x + bit) == bit + Ones(x)
  {
    assert (2 * x + bit) / 2 == x && (2 * x + bit) % 2 == bit;
  }

  /** Mirroring k in the upper half of 2^(n+1) numbers removes exactly one change of bits. */
  lemma {:induction false} GrayMirror(n: nat, k: nat)
    requires Pow2(n) <= k < Pow2(n + 1)
    ensures GrayWeight(k) == 1 + GrayWeight(Pow2(n + 1) - 1 - k)
  {
    if n == 0 {
      assert k == 1 && Pow2(1) == 2;
      assert GrayWeight(1) == 1 + GrayWeight(0);
    } else {
      var m := Pow2(n + 1) - 1 - k;
      assert Pow2(n + 1) == 2 * Pow2(n) && Pow2(n) == 2 * Pow2(n - 1);
      assert m / 2 == Pow2(n) - 1 - k / 2 && m % 2 == 1 - k % 2;
      assert (m / 2) % 2 == 1 - (k / 2) % 2;
      GrayMirror(n - 1, k / 2);
    }
  }

  lemma NextCurve(n: nat)
    requires 1 <= n
    ensures Curve(n) == Curve(n - 1) + Folded(Curve(n - 1)) && Pow2(n) == 2 * Pow2(n - 1)
  {
  }

  lemma FirstCurve()
    ensures Curve(0) == [1] && Pow2(0) == 1 && GrayWeight(0) == 0
  {
  }

  /** The direction of segment k of the curve. */
  lemma {:induction false} CurveDirection(n: nat, k: nat)
    requires k < Pow2(n)
    ensures Curve(n)[k] == (1 + GrayWeight(k)) % 4
  {
    hide Folded, Curve, GrayWeight, Pow2;
    if n == 0 {
      FirstCurve();
    } else {
      NextCurve(n);
      if k < Pow2(n - 1) {
        CurveDirection(n - 1, k);
      } else {
        var m := Pow2(n) - 1 - k;
        GrayMirror(n - 1, k);
        CurveDirection(n - 1, m);
        assert Curve(n)[k] == Folded(Curve(n - 1))[k - Pow2(n - 1)];
      }
    }
  }

  /** The same with the bit operations: one more than the ones of k xor (k >> 1), modulo 4. */
  lemma SegmentDirection(n: nat, k: nat)
    requires k < Pow2(n)
    ensures Curve(n)[k] == (1 + Ones(Xor(k, k / 2))) % 4
  {
    hide Curve, Ones, Xor, GrayWeight, Pow2;
    CurveDirection(n, k);
    GrayWeightIsOnes(k);
  }

  // ----- where the pen goes -----

  datatype Vec = Vec(x: int, y: int)

  function Add(a: Vec, b: Vec): Vec {
    Vec(a.x + b.x, a.y + b.y)
  }

  /** A clockwise quarter turn on a screen whose y axis points down. */
  function Turn(v: Vec): Vec {
    Vec(-v.y, v.x)
  }

  /** up, right, down, left */
  function Unit(direction: int): Vec {
    match direction
    case 0 => Vec(0, -1)
    case 1 => Vec(1, 0)
    case 2 => Vec(0, 1)
    case 3 => Vec(-1, 0)
    case _ => Vec(0, 0)
  }

  function Sum(s: seq<int>): Vec {
    if s == [] then Vec(0, 0) else Add(Sum(s[..|s| - 1]), Unit(s[|s| - 1]))
  }

  lemma SumSnoc(s: seq<int>, d: int)
    ensures Sum(s + [d]) == Add(Sum(s), Unit(d))
  {
    assert (s + [d])[..|s|] == s;
  }

  lemma {:induction false} SumConcat(s: seq<int>, t: seq<int>)
    ensures Sum(s + t) == Add(Sum(s), Sum(t))
  {
    if t == [] {
      assert s + t == s;
    } else {
      hide Sum, Unit;
      var u, d := t[..|t| - 1], t[|t| - 1];
      assert s + t == s + u + [d] && t == u + [d];
      SumConcat(s, u);
      SumSnoc(s + u, d);
      SumSnoc(u, d);
    }
  }

  lemma UnitTurn(k: int)
    requires 0 <= k < 4
    ensures Unit((k + 1) % 4) == Turn(Unit(k))
  {
  }

  lemma FoldedSnoc(s: seq<int>, k: int)
    ensures Folded(s + [k]) == [(k + 1) % 4] + Folded(s)
  {
    assert (s + [k])[..|s|] == s;
  }

  lemma {:induction false} SumFolded(s: seq<int>)
    requires forall t | 0 <= t < |s| :: 0 <= s[t] < 4
    ensures Sum(Folded(s)) == Turn(Sum(s))
  {
    if s != [] {
      hide Sum, Unit, Folded;
      var k, rest := s[|s| - 1], s[..|s| - 1];
      assert s == rest + [k] && [] + [(k + 1) % 4] == [(k + 1) % 4];
      SumFolded(rest);
      FoldedSnoc(rest, k);
      SumConcat([(k + 1) % 4], Folded(rest));
      SumSnoc([], (k + 1) % 4);
      SumSnoc(rest, k);
      UnitTurn(k);
      assert Sum([]) == Vec(0, 0) by { SumNone(); }
    }
  }

  lemma SumNone()
    ensures Sum([]) == Vec(0, 0)
  {
  }

  lemma SumOne()
    ensures Sum([1]) == Vec(1, 0) == Unit(1)
  {
    hide Sum;
    SumNone();
    SumSnoc([], 1);
    assert [] + [1] == [1];
  }

  /** Each fold turns the end point by an eighth and stretches its distance by the root of two. */
  lemma CurveFold(n: nat)
    requires 1 <= n
    ensures var u := Sum(Curve(n - 1)); Sum(Curve(n)) == Vec(u.x - u.y, u.x + u.y)
  {
    hide Sum, Folded, Curve;
    NextCurve(n);
    SumConcat(Curve(n - 1), Folded(Curve(n - 1)));
    SumFolded(Curve(n - 1));
  }

  lemma {:induction false} CurveEnd(n: nat)
    ensures var v := Sum(Curve(n)); v.x * v.x + v.y * v.y == Pow2(n)
  {
    hide Sum, Curve;
    if n == 0 {
      FirstCurve();
      SumOne();
    } else {
      CurveEnd(n - 1);
      CurveFold(n);
      Squares(Sum(Curve(n - 1)).x, Sum(Curve(n - 1)).y);
    }
  }

  lemma Squares(a: int, b: int)
    ensures (a - b) * (a - b) + (a + b) * (a + b) == 2 * (a * a + b * b)
  {
  }

  class Dragon {
    var posX: int
    var posY: int
    const length: int
    const iterations: int

    constructor (n: int, length: int, startX: int, startY: int)
      ensures iterations == n && this.length == length && posX == startX && posY == startY
    {
      iterations, this.length, posX, posY := n, length, startX, startY;
    }

    method Move(direction: int)
      modifies this
      ensures posX == old(posX) + length * Unit(direction).x && posY == old(posY) + length * Unit(direction).y
    {
      var x, y := posX, posY;
      match direction {
        case 0 => y := y - length;
        case 1 => x := x + length;
        case 2 => y := y + length;
        case 3 => x := x - length;
        case _ => return;
      }
      posX, posY := x, y;
    }

    method Rotate(direction: int) returns (r: int)
      requires 0 <= direction
      modifies this
      ensures r == (direction + 1) % 4
      ensures posX == old(posX) + length * Unit(r).x && posY == old(posY) + length * Unit(r).y
    {
      r := (direction + 1) % 4;
      Move(r);
    }

    /** The pen is at the end of the segments drawn so far. */
    ghost predicate PenAt(x0: int, y0: int, s: seq<int>)
      reads this
    {
      posX == x0 + length * Sum(s).x && posY == y0 + length * Sum(s).y
    }

    lemma Drawn(x: int, s: seq<int>, d: int)
      ensures x + length * Sum(s).x + length * Unit(d).x == x + length * Sum(s + [d]).x
      ensures x + length * Sum(s).y + length * Unit(d).y == x + length * Sum(s + [d]).y
    {
      hide Sum, Unit;
      SumSnoc(s, d);
      Distribute(length, Sum(s).x, Unit(d).x);
      Distribute(length, Sum(s).y, Unit(d).y);
    }

    lemma Distribute(a: int, b: int, c: int)
      ensures a * b + a * c == a * (b + c)
    {
    }

    /** run: fills the segment array by folding, drawing each segment as it is made. */
    method Run() returns (d: array<int>)
      requires 1 <= iterations <= 30
      modifies this
      ensures fresh(d) && d[..] == Curve(iterations)
      ensures PenAt(old(posX), old(posY), d[..])
    {
      hide Sum, Folded, Curve, Pow2, Unit;
      ghost var x0, y0 := posX, posY;
      var s := 2 * Pow2(iterations - 1);
      NextCurve(iterations);
      d := new int[s];
      Move(1);
      d[0] := 1;
      var r := 0;
      FirstSegment(x0);
      FirstSegment(y0);
      assert d[..r + 1] == [1];
      var i := 1;
      while i <= iterations
        invariant 1 <= i <= iterations + 1 && 0 <= r && r + 1 == Pow2(i - 1) <= d.Length == Pow2(iterations)
        invariant d[..r + 1] == Curve(i - 1) && PenAt(x0, y0, d[..r + 1])
      {
        PowMonotone(i, iterations);
        r := Fold(d, r, i, x0, y0);
        i := i + 1;
      }
      assert d[..r + 1] == d[..];
    }

    lemma FirstSegment(x: int)
      ensures Curve(0) == [1] && Pow2(0) == 1
      ensures x + length * Unit(1).x == x + length * Sum([1]).x && x + length * Unit(1).y == x + length * Sum([1]).y
    {
      hide Sum, Curve, Unit;
      FirstCurve();
      SumOne();
    }

    lemma {:induction false} PowMonotone(m: nat, n: nat)
      requires m <= n
      ensures Pow2(m) <= Pow2(n)
      decreases n - m
    {
      if m < n { PowMonotone(m, n - 1); }
    }

    /** The inner loop: scans back from the root, adding the turned copy of each segment at the end. */
    method Fold(d: array<int>, r0: int, ghost i: nat, ghost x0: int, ghost y0: int) returns (r: int)
      requires 1 <= i && r0 + 1 == Pow2(i - 1) && Pow2(i) <= d.Length
      requires d[..r0 + 1] == Curve(i - 1) && PenAt(x0, y0, d[..r0 + 1])
      modifies this, d
      ensures r + 1 == Pow2(i) && d[..r + 1] == Curve(i) && PenAt(x0, y0, d[..r + 1])
    {
      hide Sum, Folded, Curve;
      ghost var c := Curve(i - 1);
      r := r0;
      var p := r;
      while p >= 0
        invariant -1 <= p <= r0 && r == r0 + (r0 - p)
        invariant d[..r0 + 1] == c && PenAt(x0, y0, d[..r + 1])
        invariant d[r0 + 1..r + 1] == Folded(c)[..r - r0]
        decreases p
      {
        ghost var s := d[..r + 1];
        assert d[p] == c[p];
        r := r + 1;
        d[r] := Rotate(d[p]);
        assert d[..r + 1] == s + [d[r]];
        assert d[r] == Folded(c)[r - r0 - 1];
        assert d[r0 + 1..r + 1] == Folded(c)[..r - r0 - 1] + [d[r]];
        Drawn(x0, s, d[r]);
        Drawn(y0, s, d[r]);
        p := p - 1;
      }
      assert d[..r + 1] == d[..r0 + 1] + d[r0 + 1..r + 1];
      assert Folded(c)[..r - r0] == Folded(c);
      NextCurve(i);
    }
  }

  /** Wherever the dragon starts, it ends at distance length * sqrt(2^n). */
  lemma EndDistance(n: nat, length: int, x0: int, y0: int, x: int, y: int)
    requires var v := Sum(Curve(n)); x == x0 + length * v.x && y == y0 + length * v.y
    ensures (x - x0) * (x - x0) + (y - y0) * (y - y0) == length * length * Pow2(n)
  {
    hide Sum, Curve;
    CurveEnd(n);
    var v := Sum(Curve(n));
    ScaledSquares(length, v.x, v.y);
  }

  lemma ScaledSquares(l: int, a: int, b: int)
    ensures (l * a) * (l * a) + (l * b) * (l * b) == l * l * (a * a + b * b)
  {
    assert (l * a) * (l * a) == l * l * (a * a);
    assert (l * b) * (l * b) == l * l * (b * b);
    assert l * l * (a * a) + l * l * (b * b) == l * l * (a * a + b * b);
  }
}
