/** strtou and strtoi, and exactly when they read back what ucvt and dcvt print. */
module Strtou {
  import opened Arithmetic
  import opened Chars
  import opened Ucvt

  /** tonumber of strbase.c; a character that is no digit is returned as it is. */
  function ToNumber(c: Byte): (r: nat)
    ensures r <= 15 || r == c
  {
    if 48 <= c <= 57 then c - 48 else if 65 <= c <= 70 then c - 55 else if 97 <= c <= 102 then c - 87 else c
  }

  predicate Base(base: int) {
    1 <= base <= 16
  }

  /** isnumber: everything from '0' to the last digit of the base, so the characters between '9' and 'A' too. */
  predicate IsNumber(c: Byte, base: int)
    requires Base(base)
  {
    48 <= c <= ToDigit(base - 1)
  }

  function SkipZeros(s: seq<Byte>, i: nat): (r: nat)
    requires i <= |s| && 0 in s[i..]
    ensures i <= r < |s| && s[r] != 48 && (forall j | i <= j < r :: s[j] == 48) && 0 in s[r..]
    decreases |s| - i
  {
    if s[i] == 48 then SkipZeros(s, i + 1) else i
  }

  function RunEnd(s: seq<Byte>, i: nat, base: int): (r: nat)
    requires Base(base) && i <= |s| && 0 in s[i..]
    ensures i <= r < |s| && !IsNumber(s[r], base) && forall j | i <= j < r :: IsNumber(s[j], base)
    decreases |s| - i
  {
    if IsNumber(s[i], base) then RunEnd(s, i + 1, base) else i
  }

  function Numbers(s: seq<Byte>): (r: seq<int>)
    ensures |r| == |s| && forall i | 0 <= i < |s| :: r[i] == ToNumber(s[i])
  {
    seq(|s|, i requires 0 <= i < |s| => ToNumber(s[i]))
  }

  /** The 32-bit result, read as a long when signed, and whether a step made it smaller. */
  datatype Sum = Sum(value: int, over: bool)

  function Wrap(n: int, signed: bool): (r: int)
    ensures (if signed then LONG_MIN <= r <= LONG_MAX else 0 <= r < U32) && (r - n) % U32 == 0
    ensures (if signed then LONG_MIN <= n <= LONG_MAX else 0 <= n < U32) ==> r == n
  {
    if signed then ToLong(n % U32) else n % U32
  }

  function Next(a: Sum, d: int, base: int, signed: bool): Sum {
    var r := Wrap(a.value * base + d, signed);
    Sum(r, a.over || a.value > r)
  }

  function Wrapped(ds: seq<int>, base: int, signed: bool): Sum {
    if ds == [] then Sum(0, false) else Next(Wrapped(ds[..|ds| - 1], base, signed), ds[|ds| - 1], base, signed)
  }

  /** What a scan returns; end is -1 when *scan_end is not written. */
  datatype Scanned = Scanned(value: int, end: int)

  predicate AllDigits(ds: seq<int>, base: int) {
    forall i | 0 <= i < |ds| :: ds[i] <= base
  }

  /** The number written from i on, before the sign: 0 as soon as a character of the run is no digit. */
  function Run(s: seq<Byte>, i: nat, base: int, signed: bool): Scanned
    requires Base(base) && i <= |s| && 0 in s[i..]
  {
    var k := RunEnd(s, i, base);
    var ds := Numbers(s[i..k]);
    var a := Wrapped(ds, base, signed);
    if !AllDigits(ds, base) then Scanned(0, -1) else Scanned(if a.over then LONG_MAX else a.value, k)
  }

  /** Where strtou starts to sum: after zeros and, in base 16, an x and more zeros. */
  function UnsignedStart(s: seq<Byte>, base: int): (i: nat)
    requires Terminated(s)
    ensures i < |s| && 0 in s[i..]
  {
    assert s[0..] == s;
    var i := SkipZeros(s, 0);
    NotLast(s, i);
    if s[i] == 120 && base == 16 then SkipZeros(s, i + 1) else i
  }

  function StrtouSpec(s: seq<Byte>, base: int): Scanned
    requires Base(base) && Terminated(s)
  {
    Run(s, UnsignedStart(s, base), base, false)
  }

  /** Where strtoi starts to sum: after a sign and zeros. */
  function SignedStart(s: seq<Byte>): (i: nat)
    requires Terminated(s)
    ensures i < |s| && 0 in s[i..]
  {
    assert s[0..] == s;
    NotLast(s, 0);
    SkipZeros(s, if s[0] == 45 || s[0] == 43 then 1 else 0)
  }

  function WithSign(s: seq<Byte>, n: int): int
    requires Terminated(s)
  {
    ToLong((if s[0] == 45 then -n else n) % U32)
  }

  function StrtoiSpec(s: seq<Byte>, base: int): Scanned
    requires Base(base) && Terminated(s)
  {
    var r := Run(s, SignedStart(s), base, true);
    r.(value := WithSign(s, r.value))
  }

  // ----- the code -----

  method SkipZeroDigits(s: seq<Byte>, i0: nat) returns (i: nat)
    requires i0 <= |s| && 0 in s[i0..]
    ensures i == SkipZeros(s, i0)
  {
    i := i0;
    while s[i] == 48
      invariant i < |s| && 0 in s[i..] && SkipZeros(s, i) == SkipZeros(s, i0)
      decreases |s| - i
    {
      NotLast(s, i);
      i := i + 1;
    }
  }

  /** The digit loop that strtou and strtoi have in common; bad is the early return. */
  method Convert(s: seq<Byte>, start: nat, base: int, signed: bool) returns (i: nat, result: int, bad: bool)
    requires Base(base) && start <= |s| && 0 in s[start..]
    ensures Run(s, start, base, signed) == if bad then Scanned(0, -1) else Scanned(result, i)
  {
    hide RunEnd, IsNumber, Numbers, Wrapped, AllDigits, ToNumber;
    var overflow := false;
    i, result, bad := start, 0, false;
    ghost var k := RunEnd(s, start, base);
    Start(s, start, base, signed);
    while true
      invariant start <= i <= k && 0 in s[i..] && RunEnd(s, i, base) == k
      invariant Wrapped(Numbers(s[start..i]), base, signed) == Sum(result, overflow)
      invariant AllDigits(Numbers(s[start..i]), base)
      decreases |s| - i
    {
      RunStep(s, i, base);
      var more := 48 <= s[i] <= ToDigit(base - 1);
      if !more {
        break;
      }
      DigitStep(s, start, i, k, base, signed);
      var value := ToNumber(s[i]);
      i := i + 1;
      if value > base || value < 0 {
        bad := true;
        return;
      }
      var oldresult := result;
      result := Wrap(Wrap(result * base, signed) + value, signed);
      WrapTwice(oldresult * base, value, signed);
      if oldresult > result {
        overflow := true;
      }
    }
    if overflow {
      result := LONG_MAX;
    }
  }

  lemma WrapTwice(n: int, d: int, signed: bool)
    ensures Wrap(Wrap(n, signed) + d, signed) == Wrap(n + d, signed)
  {
    var m := Wrap(n, signed);
    assert (m + d) % U32 == (n + d) % U32 by { SameModulo(m, n, d); }
  }

  lemma SameModulo(m: int, n: int, d: int)
    requires (m - n) % U32 == 0
    ensures (m + d) % U32 == (n + d) % U32
  {
  }

  lemma Start(s: seq<Byte>, start: nat, base: int, signed: bool)
    requires Base(base) && start <= |s|
    ensures Wrapped(Numbers(s[start..start]), base, signed) == Sum(0, false)
    ensures AllDigits(Numbers(s[start..start]), base)
  {
    assert s[start..start] == [];
  }

  lemma RunStep(s: seq<Byte>, i: nat, base: int)
    requires Base(base) && i <= |s| && 0 in s[i..]
    ensures i < |s| && (IsNumber(s[i], base) <==> 48 <= s[i] <= ToDigit(base - 1))
    ensures IsNumber(s[i], base) ==> 0 in s[i + 1..] && RunEnd(s, i, base) == RunEnd(s, i + 1, base) >= i + 1
    ensures !IsNumber(s[i], base) ==> RunEnd(s, i, base) == i
  {
    NotLast(s, i);
  }

  /** One more character of the run. */
  lemma DigitStep(s: seq<Byte>, start: nat, i: nat, k: nat, base: int, signed: bool)
    requires start <= i < k <= |s|
    requires AllDigits(Numbers(s[start..i]), base)
    ensures Wrapped(Numbers(s[start..i + 1]), base, signed)
            == Next(Wrapped(Numbers(s[start..i]), base, signed), ToNumber(s[i]), base, signed)
    ensures AllDigits(Numbers(s[start..i + 1]), base) <==> ToNumber(s[i]) <= base
    ensures ToNumber(s[i]) > base ==> !AllDigits(Numbers(s[start..k]), base)
  {
    hide ToNumber, Wrap, Next;
    var ds, d := Numbers(s[start..i]), ToNumber(s[i]);
    assert s[start..i + 1] == s[start..i] + [s[i]];
    assert Numbers(s[start..i + 1]) == ds + [d];
    assert (ds + [d])[..|ds|] == ds && (ds + [d])[|ds|] == d;
    assert Numbers(s[start..k])[i - start] == d;
  }

  method Strtou(s: seq<Byte>, base: int) returns (value: int, end: int)
    requires Base(base) && Terminated(s)
    ensures Scanned(value, end) == StrtouSpec(s, base)
  {
    hide Run;
    assert s[0..] == s;
    var i := SkipZeroDigits(s, 0);
    NotLast(s, i);
    if s[i] == 120 && base == 16 {
      i := i + 1;
      i := SkipZeroDigits(s, i);
    }
    var k, result, bad := Convert(s, i, base, false);
    if bad {
      return 0, -1;
    }
    return result, k;
  }

  /** The sign and the leading zeros of strtoi. */
  method AfterSign(s: seq<Byte>) returns (i: nat, sign: int)
    requires Terminated(s)
    ensures i == SignedStart(s) && sign == if s[0] == 45 then -1 else 1
  {
    hide SkipZeros;
    assert s[0..] == s;
    NotLast(s, 0);
    i, sign := 0, 1;
    if s[i] == 45 {
      sign := -1;
      i := i + 1;
    } else if s[i] == 43 {
      i := i + 1;
    }
    i := SkipZeroDigits(s, i);
  }

  method Strtoi(s: seq<Byte>, base: int) returns (value: int, end: int)
    requires Base(base) && Terminated(s)
    ensures Scanned(value, end) == StrtoiSpec(s, base)
  {
    hide Run, SignedStart, ToLong;
    var i, sign := AfterSign(s);
    var k, result, bad := Convert(s, i, base, true);
    if bad {
      assert WithSign(s, 0) == 0 by { SignedBack(0); }
      return 0, -1;
    }
    return ToLong((result * sign) % U32), k;
  }

  /** Which characters are digits, with nothing said of how they are told apart: decimal digits and capital letters
      below the base.  Small letters end a number; the characters between '9' and 'A' spoil it in bases above 10. */
  lemma Numerals(c: Byte, base: int)
    requires Base(base)
    ensures IsNumber(c, base) && ToNumber(c) <= base
            <==> exists d | 0 <= d < base :: c == "0123456789ABCDEF"[d] as int && ToNumber(c) == d
    ensures IsNumber(c, base) && ToNumber(c) > base <==> base > 10 && '9' as int < c < 'A' as int
  {
    if IsNumber(c, base) && ToNumber(c) <= base {
      Capitals();
      assert ToDigit(ToNumber(c)) == c;
    }
    forall d | 0 <= d < base && c == "0123456789ABCDEF"[d] as int ensures IsNumber(c, base) && ToNumber(c) == d {
      Capitals();
      NumeralChar(d, base);
    }
  }

  // ----- overflow -----

  predicate Fits(n: int, signed: bool) {
    0 <= n <= if signed then LONG_MAX else ULONG_MAX
  }

  /** The sum is exact, and no step looks like an overflow, just when the number fits. */
  lemma {:induction false} WrappedExact(ds: seq<int>, base: int, signed: bool)
    requires 1 <= base && forall i | 0 <= i < |ds| :: 0 <= ds[i]
    ensures Wrapped(ds, base, signed) == Sum(Value(ds, base), false) <==> Fits(Value(ds, base), signed)
  {
    ValueGrows(ds, [], base);
    if ds != [] {
      var n := |ds| - 1;
      var v, d := Value(ds[..n], base), ds[n];
      assert ds == ds[..n] + [d];
      ValueGrows(ds[..n], [d], base);
      ValueSnoc(ds[..n], d, base);
      MulMono(1, base, v);
      WrappedExact(ds[..n], base, signed);
      LastStep(Wrapped(ds[..n], base, signed), v, d, base, signed);
    }
  }

  lemma LastStep(a: Sum, v: int, d: int, base: int, signed: bool)
    requires 1 <= base && 0 <= d && 0 <= v <= v * base + d && (a == Sum(v, false) <==> Fits(v, signed))
    ensures Next(a, d, base, signed) == Sum(v * base + d, false) <==> Fits(v * base + d, signed)
  {
    if Fits(v * base + d, signed) {
      WrapFits(v * base + d, signed);
    }
  }

  lemma WrapFits(n: int, signed: bool)
    requires Fits(n, signed)
    ensures Wrap(n, signed) == n
  {
  }

  /** The sum is the number modulo 2^32, as the long with those bits when signed. */
  lemma {:induction false} WrappedModulo(ds: seq<int>, base: int, signed: bool)
    ensures Wrapped(ds, base, signed).value == Wrap(Value(ds, base), signed)
  {
    if ds == [] {
      WrapFits(0, signed);
    } else {
      var n := |ds| - 1;
      WrappedModulo(ds[..n], base, signed);
      WrapTimes(Value(ds[..n], base), base, ds[n], signed);
    }
  }

  lemma WrapTimes(v: int, base: int, d: int, signed: bool)
    ensures Wrap(Wrap(v, signed) * base + d, signed) == Wrap(v * base + d, signed)
  {
    var m := Wrap(v, signed);
    var k := (m - v) / U32;
    assert m == v + k * U32;
    Scaled(v, k, base);
    MultipleOf(m * base - v * base, k * base);
    SameModulo(m * base, v * base, d);
  }

  lemma Scaled(v: int, k: int, base: int)
    ensures (v + k * U32) * base - v * base == (k * base) * U32
  {
  }

  lemma MultipleOf(n: int, k: int)
    requires n == k * U32
    ensures n % U32 == 0
  {
  }

  /** Digit k makes the 32-bit value of the number smaller. */
  predicate Drops(ds: seq<int>, base: int, signed: bool, k: nat)
    requires k < |ds|
  {
    Wrap(Value(ds[..k + 1], base), signed) < Wrap(Value(ds[..k], base), signed)
  }

  ghost predicate SomeDrop(ds: seq<int>, base: int, signed: bool) {
    exists k: nat | k < |ds| :: Drops(ds, base, signed, k)
  }

  /** The overflow test finds exactly the numbers with a prefix whose 32-bit value is below that of the one before. */
  lemma {:induction false} OverflowFound(ds: seq<int>, base: int, signed: bool)
    ensures Wrapped(ds, base, signed).over <==> SomeDrop(ds, base, signed)
  {
    if ds != [] {
      var n := |ds| - 1;
      OverflowFound(ds[..n], base, signed);
      WrappedModulo(ds, base, signed);
      WrappedModulo(ds[..n], base, signed);
      assert ds[..n + 1] == ds;
      hide Value, Wrap;
      assert Drops(ds, base, signed, n) <==> Wrapped(ds[..n], base, signed).value > Wrapped(ds, base, signed).value;
      DropsPrefix(ds, base, signed);
    }
  }

  lemma DropsPrefix(ds: seq<int>, base: int, signed: bool)
    requires ds != []
    ensures var n := |ds| - 1;
            SomeDrop(ds, base, signed) <==> SomeDrop(ds[..n], base, signed) || Drops(ds, base, signed, n)
  {
    var n := |ds| - 1;
    forall k: nat | k < n ensures Drops(ds, base, signed, k) <==> Drops(ds[..n], base, signed, k) {
      assert ds[..n][..k] == ds[..k] && ds[..n][..k + 1] == ds[..k + 1];
    }
  }

  /** What a run of digits is read as, for every number: LONG_MAX when some digit drops the 32-bit value, which only
      numbers that do not fit do, and otherwise the number modulo 2^32. */
  lemma RunExactly(s: seq<Byte>, i: nat, base: int, signed: bool)
    requires Base(base) && i <= |s| && 0 in s[i..]
    requires AllDigits(Numbers(s[i..RunEnd(s, i, base)]), base)
    ensures var k := RunEnd(s, i, base);
            var ds := Numbers(s[i..k]);
            && Run(s, i, base, signed)
               == Scanned(if SomeDrop(ds, base, signed) then LONG_MAX else Wrap(Value(ds, base), signed), k)
            && (Fits(Value(ds, base), signed) ==> !SomeDrop(ds, base, signed))
  {
    var ds := Numbers(s[i..RunEnd(s, i, base)]);
    hide Numbers, RunEnd, Value, Wrap, Wrapped, SomeDrop;
    WrappedModulo(ds, base, signed);
    OverflowFound(ds, base, signed);
    WrappedExact(ds, base, signed);
  }

  /** strtou on every input: the digits after zeros, x and zeros are read as RunExactly says. */
  lemma StrtouExactly(s: seq<Byte>, base: int)
    requires Base(base) && Terminated(s)
    ensures var ds := Numbers(s[UnsignedStart(s, base)..RunEnd(s, UnsignedStart(s, base), base)]);
            StrtouSpec(s, base) ==
            if !AllDigits(ds, base) then Scanned(0, -1)
            else Scanned(if SomeDrop(ds, base, false) then LONG_MAX else Value(ds, base) % U32,
                         RunEnd(s, UnsignedStart(s, base), base))
  {
    hide Numbers, Value, Wrapped, SomeDrop, UnsignedStart;
    var i := UnsignedStart(s, base);
    if AllDigits(Numbers(s[i..RunEnd(s, i, base)]), base) { RunExactly(s, i, base, false); }
  }

  /** strtoi on every input: the same on longs, then the sign. */
  lemma StrtoiExactly(s: seq<Byte>, base: int)
    requires Base(base) && Terminated(s)
    ensures var ds := Numbers(s[SignedStart(s)..RunEnd(s, SignedStart(s), base)]);
            StrtoiSpec(s, base) ==
            if !AllDigits(ds, base) then Scanned(0, -1)
            else Scanned(WithSign(s, if SomeDrop(ds, base, true) then LONG_MAX else Wrap(Value(ds, base), true)),
                         RunEnd(s, SignedStart(s), base))
  {
    hide Numbers, Value, Wrapped, Wrap, SomeDrop, SignedStart;
    var i := SignedStart(s);
    if AllDigits(Numbers(s[i..RunEnd(s, i, base)]), base) { RunExactly(s, i, base, true); }
  }

  /** strtou is right exactly for the numbers that fit; of the others it reports, by LONG_MAX, exactly those with a
      digit that drops the 32-bit value (or whose remainder happens to be LONG_MAX). */
  lemma OverflowReported(s: seq<Byte>, base: int)
    requires Base(base) && Terminated(s)
    requires var i := UnsignedStart(s, base); AllDigits(Numbers(s[i..RunEnd(s, i, base)]), base)
    ensures var i := UnsignedStart(s, base);
            var ds := Numbers(s[i..RunEnd(s, i, base)]);
            var v := Value(ds, base);
            && (StrtouSpec(s, base).value == v <==> Fits(v, false))
            && (!Fits(v, false) ==>
                  (StrtouSpec(s, base).value == LONG_MAX <==> SomeDrop(ds, base, false) || v % U32 == LONG_MAX))
  {
    var i := UnsignedStart(s, base);
    var ds := Numbers(s[i..RunEnd(s, i, base)]);
    StrtouExactly(s, base);
    RunExactly(s, i, base, false);
    hide Numbers, Value, Wrapped, SomeDrop, UnsignedStart, StrtouSpec, RunEnd;
    assert 0 <= Value(ds, base) by { ValueGrows(ds, [], base); }
  }

  lemma LimitDrops(ds: seq<int>, base: int)
    requires 2 <= base && Value(ds, base) == 0x8000_0000 && forall i | 0 <= i < |ds| :: 0 <= ds[i]
    ensures SomeDrop(ds, base, true)
  {
    var n := |ds| - 1;
    assert ds == ds[..n] + [ds[n]];
    ValueGrows(ds[..n], [], base);
    ValueSnoc(ds[..n], ds[n], base);
    OneTooMany(ds[..n], ds[n], Value(ds[..n], base), base);
    OverflowFound(ds, base, true);
  }

  /** strtoi is right exactly for the magnitudes that fit a long. */
  lemma RightExactly(s: seq<Byte>, base: int)
    requires Base(base) && 2 <= base && Terminated(s)
    requires var i := SignedStart(s); AllDigits(Numbers(s[i..RunEnd(s, i, base)]), base)
    ensures var i := SignedStart(s);
            var v := Value(Numbers(s[i..RunEnd(s, i, base)]), base);
            StrtoiSpec(s, base).value == (if s[0] == 45 then -v else v) <==> Fits(v, true)
  {
    var i := SignedStart(s);
    var ds := Numbers(s[i..RunEnd(s, i, base)]);
    StrtoiExactly(s, base);
    RunExactly(s, i, base, true);
    hide Numbers, Wrapped, SignedStart, StrtoiSpec, RunEnd, SomeDrop, ToLong, Wrap;
    assert 0 <= Value(ds, base) by { ValueGrows(ds, [], base); }
    if Value(ds, base) == 0x8000_0000 {
      LimitDrops(ds, base);
      SignedBack(LONG_MAX);
    } else if Fits(Value(ds, base), true) {
      SignedBack(Value(ds, base));
    }
  }

  /** One number that the test misses: 5000000000 is read as 705032704. */
  lemma OverflowMissed()
    ensures var s: seq<Byte> := [53] + Pad(48, 9) + [0];
            Terminated(s) && StrtouSpec(s, 10) == Scanned(705032704, 10) && Value(Numbers(s[..10]), 10) == 5_000_000_000
  {
    hide Wrapped, Value, Numbers;
    var s: seq<Byte> := [53] + Pad(48, 9) + [0];
    assert s[10] == 0 && s[0..] == s;
    RunEndIs(s, 0, 10, 10);
    assert s[0..10] == [53] + Pad(48, 9) == s[..10];
    NumbersOfFive();
    FiveBillion();
  }

  lemma NumbersOfFive()
    ensures Numbers([53] + Pad(48, 9)) == [5] + seq(9, _ => 0)
  {
  }

  lemma FiveBillion()
    ensures var ds := [5] + seq(9, _ => 0);
            Value(ds, 10) == 5_000_000_000 && Wrapped(ds, 10, false) == Sum(705032704, false)
  {
    hide Value;
    var ds := [5] + seq(9, _ => 0);
    FiveThenZeros(8);
    FiveThenZeros(9);
    assert Pow(10, 2) == 100 && Pow(10, 4) == 10_000 && Pow(10, 6) == 1_000_000;
    assert Pow(10, 8) == 100_000_000 && Pow(10, 9) == 1_000_000_000;
    assert ds[..9] == [5] + seq(8, _ => 0);
    WrappedExact(ds[..9], 10, false);
  }

  lemma {:induction false} FiveThenZeros(n: nat)
    ensures Value([5] + seq(n, _ => 0), 10) == 5 * Pow(10, n)
  {
    var ds := [5] + seq(n, _ => 0);
    if n == 0 {
      assert ds == [5] && ds[..0] == [];
    } else {
      assert ds == [5] + seq(n - 1, _ => 0) + [0];
      FiveThenZeros(n - 1);
      ValueSnoc([5] + seq(n - 1, _ => 0), 0, 10);
    }
  }

  // ----- reading back -----

  lemma {:induction false} RunEndIs(s: seq<Byte>, i: nat, k: nat, base: int)
    requires Base(base) && i <= k < |s| && 0 in s[i..]
    requires !IsNumber(s[k], base) && forall j | i <= j < k :: IsNumber(s[j], base)
    ensures RunEnd(s, i, base) == k
    decreases k - i
  {
    if i < k {
      NotLast(s, i);
      RunEndIs(s, i + 1, k, base);
    }
  }

  lemma {:induction false} SkipZerosIs(s: seq<Byte>, i: nat, k: nat)
    requires i <= k < |s| && 0 in s[i..] && s[k] != 48 && forall j | i <= j < k :: s[j] == 48
    ensures SkipZeros(s, i) == k
    decreases k - i
  {
    if i < k {
      NotLast(s, i);
      SkipZerosIs(s, i + 1, k);
    }
  }

  lemma NumeralChar(d: int, base: int)
    requires Base(base) && 0 <= d < base
    ensures ToNumber(ToDigit(d)) == d && IsNumber(ToDigit(d), base) && (ToDigit(d) == 48 <==> d == 0)
    ensures ToDigit(d) != 120 && ToDigit(d) != 45 && ToDigit(d) != 43
  {
  }

  /** The digits of m, then a space or NUL: the run is the digits of m. */
  lemma RunOfDigits(s: seq<Byte>, b: nat, m: nat, base: int)
    requires Base(base) && 2 <= base
    requires var e := b + |DigitsOf(m, base)|;
             && e < |s| && s[b..e] == DigitBytes(DigitsOf(m, base)) && (s[e] == 0 || s[e] == 32) && 0 in s[e..]
    ensures var e := b + |DigitsOf(m, base)|;
            0 in s[b..] && RunEnd(s, b, base) == e && RunEnd(s, e, base) == e && Numbers(s[b..e]) == DigitsOf(m, base)
    ensures s[b] == ToDigit(DigitsOf(m, base)[0])
  {
    hide DigitsOf, ToDigit, IsNumber, ToNumber;
    var ds := DigitsOf(m, base);
    var e := b + |ds|;
    var k :| e <= k < |s| && s[k] == 0;
    assert s[b..][k - b] == 0;
    forall j | b <= j < e ensures IsNumber(s[j], base) && ToNumber(s[j]) == ds[j - b] && s[j] == ToDigit(ds[j - b]) {
      assert s[j] == s[b..e][j - b];
      NumeralChar(ds[j - b], base);
    }
    BlankEnds(s[e], base);
    RunEndIs(s, b, e, base);
    RunEndIs(s, e, e, base);
    assert Numbers(s[b..e]) == ds;
  }

  /** Zeros, then the digits of m, then a space or NUL: the run is summed as the digits of m. */
  lemma ReadsRun(s: seq<Byte>, p: nat, z: nat, m: nat, base: int, signed: bool)
    requires Base(base) && 2 <= base
    requires var n := |DigitsOf(m, base)|; p + z + n < |s|
    requires forall j | p <= j < p + z :: s[j] == 48
    requires var n := |DigitsOf(m, base)|; s[p + z..p + z + n] == DigitBytes(DigitsOf(m, base))
    requires var e := p + z + |DigitsOf(m, base)|; (s[e] == 0 || s[e] == 32) && 0 in s[e..]
    ensures 0 in s[p..]
    ensures var q, e := SkipZeros(s, p), p + z + |DigitsOf(m, base)|;
            var a := Wrapped(DigitsOf(m, base), base, signed);
            s[q] != 120 && Run(s, q, base, signed) == Scanned(if a.over then LONG_MAX else a.value, e)
  {
    hide DigitsOf, DigitBytes, ToDigit, IsNumber, ToNumber, Wrapped, RunEnd, Numbers, SkipZeros, Run;
    var ds := DigitsOf(m, base);
    var b, e := p + z, p + z + |ds|;
    RunOfDigits(s, b, m, base);
    NumeralChar(ds[0], base);
    LeadingDigit(m, base);
    LaterNul(s, p, b);
    if m == 0 {
      ZeroDigit(base);
      SkipZerosIs(s, p, e);
      NoNumbers(s, e);
      WrappedZero(base, signed);
      RunIs(s, e, e, [], base, signed);
    } else {
      SkipZerosIs(s, p, b);
      RunIs(s, b, e, ds, base, signed);
    }
  }

  lemma LaterNul(s: seq<Byte>, p: nat, b: nat)
    requires p <= b <= |s| && 0 in s[b..]
    ensures 0 in s[p..]
  {
    assert s[p..][b - p..] == s[b..];
  }

  lemma RunIs(s: seq<Byte>, q: nat, e: nat, ds: seq<int>, base: int, signed: bool)
    requires Base(base) && q <= e <= |s| && 0 in s[q..] && RunEnd(s, q, base) == e && Numbers(s[q..e]) == ds
    requires forall i | 0 <= i < |ds| :: ds[i] < base
    ensures var a := Wrapped(ds, base, signed);
            Run(s, q, base, signed) == Scanned(if a.over then LONG_MAX else a.value, e)
  {
    hide RunEnd, Numbers, Wrapped;
  }

  lemma NoNumbers(s: seq<Byte>, e: nat)
    requires e <= |s|
    ensures Numbers(s[e..e]) == []
  {
  }

  lemma BlankEnds(c: Byte, base: int)
    requires Base(base) && (c == 0 || c == 32)
    ensures !IsNumber(c, base)
  {
  }

  lemma WrappedZero(base: int, signed: bool)
    ensures Wrapped([], base, signed) == Sum(0, false) && Wrapped([0], base, signed) == Sum(0, false)
  {
    assert [0][..0] == [];
  }

  /** The digits of m sum to m when it fits; those of 2^31 overflow a long in their last step. */
  lemma SumOfDigits(m: nat, base: int, signed: bool)
    requires Base(base) && 2 <= base
    ensures Fits(m, signed) ==> Wrapped(DigitsOf(m, base), base, signed) == Sum(m, false)
    ensures m == 0x8000_0000 && signed ==> Wrapped(DigitsOf(m, base), base, signed).over
  {
    hide DigitsOf, Value;
    ValueOfDigits(m, base);
    WrappedExact(DigitsOf(m, base), base, signed);
    if m == 0x8000_0000 && signed {
      var q := m / base;
      DivLess(m, base);
      DivPositive(m, base);
      Peel(m, base);
      ValueOfDigits(q, base);
      OneTooMany(DigitsOf(q, base), m % base, q, base);
    }
  }

  /** The step that reaches 2^31 is seen as an overflow. */
  lemma OneTooMany(ds: seq<int>, d: int, q: int, base: int)
    requires 2 <= base && 0 <= d && 0 <= q && Value(ds, base) == q && q * base + d == 0x8000_0000
    requires forall i | 0 <= i < |ds| :: 0 <= ds[i]
    ensures Wrapped(ds + [d], base, true).over
  {
    assert (ds + [d])[..|ds|] == ds && (ds + [d])[|ds|] == d;
    MulMono(2, base, q);
    hide Value;
    WrappedExact(ds, base, true);
    hide Wrapped;
    LastStepOver(q, d, base);
  }

  lemma LastStepOver(q: int, d: int, base: int)
    requires q * base + d == 0x8000_0000 && 0 <= q
    ensures Next(Sum(q, false), d, base, true).over
  {
  }

  /** Where the parts of a rendering are in the string that holds it. */
  lemma PrintedParts(s: seq<Byte>, v: nat, base: int, width: int, f: Flags)
    requires v < U32 && 2 <= AbsBase(base)
    requires var r := Rendering(v, base, width, f); |r| < |s| && s[..|r|] == r && s[|r|] == 0
    ensures Terminated(s) && s[0..] == s
    ensures LeadSpaces(v, base, width, f) != [] ==> s[0] == 32
    ensures LeadSpaces(v, base, width, f) == [] ==>
              var p := |Sign(v, base, f.plus)|;
              var b := p + |LeadZeros(v, base, width, f)|;
              var e := b + |Numeral(v, base)|;
              && e < |s| && (0 < p ==> s[0] == Sign(v, base, f.plus)[0]) && (forall j | p <= j < b :: s[j] == 48)
              && s[b..e] == Numeral(v, base) && (s[e] == 0 || s[e] == 32) && 0 in s[e..]
  {
    hide Sign, Numeral, LeadZeros, TrailSpaces;
    var r := Rendering(v, base, width, f);
    var sign, zeros, num := Sign(v, base, f.plus), LeadZeros(v, base, width, f), Numeral(v, base);
    assert s[0] == if r == [] then 0 else r[0];
    if LeadSpaces(v, base, width, f) == [] {
      var p := |sign|;
      var b := p + |zeros|;
      var e := b + |num|;
      assert r == sign + zeros + num + TrailSpaces(v, base, width, f);
      assert forall j | 0 <= j < |r| :: s[j] == r[j];
      assert forall j | p <= j < b :: s[j] == zeros[j - p];
      assert s[b..e] == num;
      assert e < |r| ==> s[e] == TrailSpaces(v, base, width, f)[0];
      assert s[e..][|r| - e] == 0;
    }
  }

  lemma FirstBlank(s: seq<Byte>, base: int, signed: bool)
    requires Base(base) && Terminated(s) && s[0..] == s && (s[0] == 32 || s[0] == 43)
    ensures SkipZeros(s, 0) == 0 && Run(s, 0, base, signed).value == 0
  {
    assert s[0..0] == [];
  }

  /** strtou reads ucvt back unless a plus sign or left space padding was printed before a number that is not 0. */
  lemma StrtouReadsUcvt(s: seq<Byte>, v: nat, base: int, width: int, f: Flags)
    requires v < U32 && 2 <= base <= 16
    requires var r := Rendering(v, base, width, f); |r| < |s| && s[..|r|] == r && s[|r|] == 0
    ensures Terminated(s)
    ensures StrtouSpec(s, base).value == v <==> v == 0 || (!f.plus && LeadSpaces(v, base, width, f) == [])
    ensures !f.plus && LeadSpaces(v, base, width, f) == [] ==>
              StrtouSpec(s, base).end == |LeadZeros(v, base, width, f)| + |Numeral(v, base)|
  {
    hide DigitsOf, LeadSpaces, LeadZeros, Rendering, Run, DigitBytes, Wrapped;
    PrintedParts(s, v, base, width, f);
    if LeadSpaces(v, base, width, f) != [] || f.plus {
      FirstBlank(s, base, false);
    } else {
      ReadsRun(s, 0, |LeadZeros(v, base, width, f)|, v, base, false);
      SumOfDigits(v, base, false);
    }
  }

  /** Zeros, an x, more zeros and the digits of m: in base 16 a small x is passed over and m is read; a capital X, and
      in any other base either, ends the number, which is 0. */
  lemma HexadecimalRead(s: seq<Byte>, x: nat, z: nat, m: nat, base: int)
    requires Base(base) && m < U32
    requires var e := x + 1 + z + |DigitsOf(m, 16)|;
             && e < |s| && (forall j | 0 <= j < x :: s[j] == 48) && (forall j | x < j < x + 1 + z :: s[j] == 48)
             && s[x + 1 + z..e] == DigitBytes(DigitsOf(m, 16)) && (s[e] == 0 || s[e] == 32) && 0 in s[e..]
    requires s[x] == 'x' as int || s[x] == 'X' as int
    ensures Terminated(s)
    ensures StrtouSpec(s, base)
            == if base == 16 && s[x] == 'x' as int then Scanned(m, x + 1 + z + |DigitsOf(m, 16)|) else Scanned(0, x)
  {
    hide DigitsOf, DigitBytes, SkipZeros, Run, Wrapped, RunEnd;
    assert s[0..] == s;
    LaterNul(s, 0, x + 1 + z + |DigitsOf(m, 16)|);
    LaterNul(s, x, x + 1 + z + |DigitsOf(m, 16)|);
    SkipZerosIs(s, 0, x);
    if base == 16 && s[x] == 120 {
      ReadsRun(s, x + 1, z, m, 16, false);
      SumOfDigits(m, 16, false);
    } else {
      RunEndIs(s, x, x, base);
      NoNumbers(s, x);
      WrappedZero(base, false);
      RunIs(s, x, x, [], base, false);
    }
  }

  lemma SignOfLong(v: int, base: int, plus: bool)
    requires LONG_MIN <= v <= LONG_MAX && 2 <= base
    ensures Magnitude(v % U32, -base) == if v < 0 then -v else v
    ensures Sign(v % U32, -base, plus) == if v < 0 then [45] else if plus then [43] else []
  {
  }

  lemma SignedBack(m: int)
    requires 0 <= m <= LONG_MAX
    ensures ToLong(m % U32) == m && ToLong((-m) % U32) == -m
  {
  }

  /** The part of StrtoiReadsDcvt after the spaces. */
  lemma ReadsLong(s: seq<Byte>, v: int, base: int, p: nat, z: nat)
    requires LONG_MIN <= v <= LONG_MAX && 2 <= base <= 16 && s[0..] == s
    requires var m := if v < 0 then -v else v;
             var e := p + z + |DigitsOf(m, base)|;
             && e < |s| && p <= 1 && (forall j | p <= j < p + z :: s[j] == 48)
             && s[p + z..e] == DigitBytes(DigitsOf(m, base)) && (s[e] == 0 || s[e] == 32) && 0 in s[e..]
             && (if v < 0 then p == 1 && s[0] == 45 else p == 1 ==> s[0] == 43)
    ensures Terminated(s) && (StrtoiSpec(s, base).value == v <==> v != LONG_MIN)
  {
    hide DigitsOf, Run, DigitBytes, Wrapped, ToLong, SkipZeros, ToDigit;
    var m: nat := if v < 0 then -v else v;
    ReadsRun(s, p, z, m, base, true);
    SumOfDigits(m, base, true);
    SignedBack(if v == LONG_MIN then LONG_MAX else m);
    FirstDigit(s, p, z, m, base);
  }

  lemma FirstDigit(s: seq<Byte>, p: nat, z: nat, m: nat, base: int)
    requires Base(base) && 2 <= base
    requires var e := p + z + |DigitsOf(m, base)|;
             e < |s| && (forall j | p <= j < p + z :: s[j] == 48) && s[p + z..e] == DigitBytes(DigitsOf(m, base))
    ensures s[p] != 45 && s[p] != 43
  {
    hide DigitsOf, ToDigit;
    NumeralChar(DigitsOf(m, base)[0], base);
    assert s[p + z] == s[p + z..p + z + |DigitsOf(m, base)|][0];
  }

  /** strtoi reads dcvt back unless spaces were printed on the left of a number that is not 0, or it is LONG_MIN. */
  lemma StrtoiReadsDcvt(s: seq<Byte>, v: int, base: int, width: int, f: Flags)
    requires LONG_MIN <= v <= LONG_MAX && 2 <= base <= 16
    requires var r := Rendering(v % U32, -base, width, f); |r| < |s| && s[..|r|] == r && s[|r|] == 0
    ensures Terminated(s)
    ensures StrtoiSpec(s, base).value == v
            <==> v == 0 || (v != LONG_MIN && LeadSpaces(v % U32, -base, width, f) == [])
  {
    hide DigitsOf, LeadSpaces, LeadZeros, Rendering, Run, DigitBytes, Wrapped, Sign, Magnitude, ToDigit;
    var u := v % U32;
    PrintedParts(s, u, -base, width, f);
    SignOfLong(v, base, f.plus);
    if LeadSpaces(u, -base, width, f) != [] {
      FirstBlank(s, base, true);
    } else {
      hide StrtoiSpec;
      ReadsLong(s, v, base, |Sign(u, -base, f.plus)|, |LeadZeros(u, -base, width, f)|);
    }
  }
}
