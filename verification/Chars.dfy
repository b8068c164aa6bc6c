/** Bytes, 32-bit words and the character tests of the C library. */
module Chars {
  import opened Arithmetic

  type Byte = b: int | 0 <= b < 256

  const U32 := 0x1_0000_0000
  const LONG_MAX := 0x7FFF_FFFF
  const LONG_MIN := -0x8000_0000
  const ULONG_MAX := 0xFFFF_FFFF

  /** The long with the same 32 bits. */
  function ToLong(u: int): (r: int)
    requires 0 <= u < U32
    ensures LONG_MIN <= r <= LONG_MAX && (r - u) % U32 == 0
  {
    if u <= LONG_MAX then u else u - U32
  }

  predicate IsSpace(c: Byte) {
    9 <= c <= 13 || c == 32
  }

  predicate IsDigit(c: Byte) {
    48 <= c <= 57
  }

  /** isalpha of strbase.c: everything from 'A' to 'z', the six characters in between included. */
  predicate IsAlpha(c: Byte) {
    65 <= c <= 122
  }

  predicate IsUpper(c: Byte) {
    65 <= c <= 90
  }

  /** A C string: bytes up to and including the first NUL, and perhaps more. */
  predicate Terminated(s: seq<Byte>) {
    0 in s
  }

  /** A character that is not NUL is followed by another one. */
  lemma NotLast(s: seq<Byte>, i: nat)
    requires i < |s| && 0 in s[i..]
    ensures s[i] != 0 ==> i + 1 < |s| && 0 in s[i + 1..]
  {
    assert s[i..] == [s[i]] + s[i + 1..];
  }

  // ----- positional notation -----

  /** The number written by digits, most significant first. */
  function Value(digits: seq<int>, base: int): int {
    if digits == [] then 0 else Value(digits[..|digits| - 1], base) * base + digits[|digits| - 1]
  }

  lemma ValueSnoc(digits: seq<int>, d: int, base: int)
    ensures Value(digits + [d], base) == Value(digits, base) * base + d
  {
    assert (digits + [d])[..|digits|] == digits;
  }

  lemma MulMono(a: int, b: int, m: int)
    requires a <= b && 0 <= m
    ensures a * m <= b * m
  {
  }

  /** Longer numbers are not smaller. */
  lemma {:induction false} ValueGrows(a: seq<int>, b: seq<int>, base: int)
    requires 1 <= base && (forall i | 0 <= i < |a| :: 0 <= a[i]) && (forall i | 0 <= i < |b| :: 0 <= b[i])
    ensures 0 <= Value(a, base) <= Value(a + b, base)
    decreases |a| + |b|
  {
    if b != [] {
      var c, d := b[..|b| - 1], b[|b| - 1];
      assert a + b == a + c + [d];
      ValueGrows(a, c, base);
      ValueSnoc(a + c, d, base);
      MulMono(1, base, Value(a + c, base));
    } else if a != [] {
      assert a + b == a;
      var c, d := a[..|a| - 1], a[|a| - 1];
      ValueGrows(c, [], base);
      assert c + [] == c;
      MulMono(0, Value(c, base), base);
    } else {
      assert a + b == [];
    }
  }

  /** v in base radix, most significant digit first; zero is one digit. */
  function DigitsOf(v: nat, radix: nat): (r: seq<int>)
    requires 2 <= radix
    ensures r != [] && forall i | 0 <= i < |r| :: 0 <= r[i] < radix
    decreases v
  {
    if v < radix then [v]
    else
      DivLess(v, radix);
      DigitsOf(v / radix, radix) + [v % radix]
  }

  lemma DivLess(v: nat, radix: nat)
    requires 2 <= radix
    ensures 0 <= v / radix && (0 < v ==> v / radix < v) && 0 <= v % radix < radix
    ensures v == (v / radix) * radix + v % radix
  {
    var q := v / radix;
    assert v == q * radix + v % radix;
    if 0 < q {
      assert q * radix == q * (radix - 2) + 2 * q;
      MulMono(0, radix - 2, q);
    }
  }

  lemma {:induction false} ValueOfDigits(v: nat, radix: nat)
    requires 2 <= radix
    ensures Value(DigitsOf(v, radix), radix) == v
    decreases v
  {
    if v < radix {
      assert [v][..0] == [];
    } else {
      hide Value;
      DivLess(v, radix);
      ValueOfDigits(v / radix, radix);
      ValueSnoc(DigitsOf(v / radix, radix), v % radix, radix);
    }
  }

  /** The leading digit is zero only in "0". */
  lemma {:induction false} LeadingDigit(v: nat, radix: nat)
    requires 2 <= radix
    ensures DigitsOf(v, radix)[0] == 0 <==> v == 0
    decreases v
  {
    if v >= radix {
      DivLess(v, radix);
      DivPositive(v, radix);
      LeadingDigit(v / radix, radix);
    }
  }

  lemma DivPositive(v: nat, radix: nat)
    requires 1 <= radix <= v
    ensures 0 < v / radix
  {
  }

  /** One division splits off the last digit. */
  lemma Peel(v: nat, radix: nat)
    requires 2 <= radix
    ensures v / radix == 0 ==> DigitsOf(v, radix) == [v % radix]
    ensures v / radix != 0 ==> DigitsOf(v, radix) == DigitsOf(v / radix, radix) + [v % radix]
  {
    DivLess(v, radix);
    if v >= radix { DivPositive(v, radix); }
  }

  /** The digits collected so far, with one more before them. */
  lemma Regroup(a: seq<int>, d: int, ds: seq<int>)
    ensures a + [d] + ds == a + ([d] + ds) && [d] + [] == [d]
  {
  }

  /** A number below b^k has at most k digits in every base from b on. */
  lemma {:induction false} DigitsLength(v: nat, radix: nat, b: nat, k: nat)
    requires 2 <= b <= radix && 1 <= k && v < Pow(b, k)
    ensures |DigitsOf(v, radix)| <= k
    decreases v
  {
    assert Pow(b, 1) == b * Pow(b, 0) == b;
    if v >= radix {
      hide DigitsOf;
      Peel(v, radix);
      DivLess(v, radix);
      DivPositive(v, radix);
      DivBelow(v, radix, b, Pow(b, k - 1));
      DigitsLength(v / radix, radix, b, k - 1);
    }
  }

  lemma DivBelow(v: nat, radix: nat, b: nat, p: nat)
    requires 2 <= b <= radix && v < b * p
    ensures v / radix < p
  {
    DivLess(v, radix);
    MulMono(b, radix, v / radix);
    if v / radix >= p { MulMono(p, v / radix, b); }
  }
}
