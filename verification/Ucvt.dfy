/** ucvt and dcvt, the number printers behind sprintf. */
module Ucvt {
  import opened Arithmetic
  import opened Chars
  import Itoa

  /** The four bits of the flag word that ucvt looks at. */
  datatype Flags = Flags(plus: bool, space: bool, zero: bool, left: bool)

  function ToDigit(c: nat): Byte {
    if c <= 9 then c + 48 else if c <= 15 then c + 55 else c % 256
  }

  function DigitBytes(ds: seq<int>): (r: seq<Byte>)
    requires forall i | 0 <= i < |ds| :: 0 <= ds[i]
    ensures |r| == |ds| && forall i | 0 <= i < |ds| :: r[i] == ToDigit(ds[i])
  {
    seq(|ds|, i requires 0 <= i < |ds| => ToDigit(ds[i]))
  }

  function AbsBase(base: int): nat {
    if base >= 0 then base else -base
  }

  /** The 32 bits of v as they are, or, for a negative base, the magnitude of the long they stand for. */
  function Magnitude(v: nat, base: int): (r: int)
    requires v < U32
    ensures 0 <= r < U32 && (r == 0 <==> v == 0)
  {
    if base < 0 && ToLong(v) < 0 then U32 - v else v
  }

  function Pad(c: Byte, n: int): (r: seq<Byte>)
    ensures |r| == (if n < 0 then 0 else n) && forall i | 0 <= i < |r| :: r[i] == c
  {
    seq(if n < 0 then 0 else n, _ => c)
  }

  function Sign(v: nat, base: int, plus: bool): (r: seq<Byte>)
    requires v < U32
    ensures |r| <= 1
  {
    if base < 0 && ToLong(v) < 0 then [45] else if plus then [43] else []
  }

  function Numeral(v: nat, base: int): (r: seq<Byte>)
    requires v < U32 && 2 <= AbsBase(base)
    ensures |r| == |DigitsOf(Magnitude(v, base), AbsBase(base))| >= 1
  {
    DigitBytes(DigitsOf(Magnitude(v, base), AbsBase(base)))
  }

  /** How many characters of padding the width asks for. */
  function Missing(v: nat, base: int, width: int, f: Flags): int
    requires v < U32 && 2 <= AbsBase(base)
  {
    width - |Sign(v, base, f.plus)| - |Numeral(v, base)|
  }

  // The flag LEFT_PAD is inverted on entry: without it the padding goes to the left.

  function LeadSpaces(v: nat, base: int, width: int, f: Flags): seq<Byte>
    requires v < U32 && 2 <= AbsBase(base)
  {
    if !f.left && f.space then Pad(32, Missing(v, base, width, f)) else []
  }

  function LeadZeros(v: nat, base: int, width: int, f: Flags): (r: seq<Byte>)
    requires v < U32 && 2 <= AbsBase(base)
    ensures forall i | 0 <= i < |r| :: r[i] == 48
  {
    if !f.left && f.zero && !f.space then Pad(48, Missing(v, base, width, f)) else []
  }

  function TrailSpaces(v: nat, base: int, width: int, f: Flags): (r: seq<Byte>)
    requires v < U32 && 2 <= AbsBase(base)
    ensures forall i | 0 <= i < |r| :: r[i] == 32
  {
    if f.left && f.space then Pad(32, Missing(v, base, width, f)) else []
  }

  function Rendering(v: nat, base: int, width: int, f: Flags): seq<Byte>
    requires v < U32 && 2 <= AbsBase(base)
  {
    LeadSpaces(v, base, width, f) + Sign(v, base, f.plus) + LeadZeros(v, base, width, f)
    + Numeral(v, base) + TrailSpaces(v, base, width, f)
  }

  /** The numeral is the one without leading zeros, in decimal digits and capital letters. */
  lemma NumeralIs(v: nat, base: int) returns (ds: seq<int>)
    requires v < U32 && 2 <= AbsBase(base) <= 16
    ensures forall i | 0 <= i < |ds| :: 0 <= ds[i] < AbsBase(base)
    ensures ds != [] && (ds[0] == 0 ==> ds == [0])
    ensures Value(ds, AbsBase(base)) == if base < 0 && v > LONG_MAX then U32 - v else v
    ensures |Numeral(v, base)| == |ds| && forall i | 0 <= i < |ds| ::
              Numeral(v, base)[i] == "0123456789ABCDEF"[ds[i]] as int
  {
    hide DigitsOf, Value, ToDigit;
    var m, radix := Magnitude(v, base), AbsBase(base);
    ds := DigitsOf(m, radix);
    ValueOfDigits(m, radix);
    LeadingDigit(m, radix);
    if m == 0 { ZeroDigit(radix); }
    NumeralDigits(v, base);
    Capitals();
  }

  lemma Capitals()
    ensures forall d | 0 <= d < 16 :: ToDigit(d) == "0123456789ABCDEF"[d] as int
  {
  }

  /** The layout: sign and numeral are there whole, and padding makes up the width and no more.  It is spaces on the
      left or zeros between sign and numeral, or spaces on the right when f.left is set. */
  lemma Layout(v: nat, base: int, width: int, f: Flags) returns (sign: seq<Byte>, n: nat)
    requires v < U32 && 2 <= AbsBase(base)
    ensures sign == if base < 0 && v > LONG_MAX then ['-' as int] else if f.plus then ['+' as int] else []
    ensures n == if f.space || (f.zero && !f.left) then Most(width - |sign| - |Numeral(v, base)|, 0) else 0
    ensures Rendering(v, base, width, f) ==
            if f.left then sign + Numeral(v, base) + seq(n, _ => ' ' as int)
            else if f.space then seq(n, _ => ' ' as int) + sign + Numeral(v, base)
            else sign + seq(n, _ => '0' as int) + Numeral(v, base)
    ensures |Rendering(v, base, width, f)|
            == if f.space || (f.zero && !f.left) then Most(width, |sign| + |Numeral(v, base)|)
               else |sign| + |Numeral(v, base)|
  {
    hide Numeral, Pad, ToLong, Sign;
    sign := Sign(v, base, f.plus);
    SignIs(v, base, f.plus);
    var missing := Missing(v, base, width, f);
    n := if f.space || (f.zero && !f.left) then Most(missing, 0) else 0;
    PadIs(32, missing);
    PadIs(48, missing);
    assert seq(0, _ => 32) == [] == seq(0, _ => 48);
  }

  lemma SignIs(v: nat, base: int, plus: bool)
    requires v < U32
    ensures Sign(v, base, plus) == if base < 0 && v > LONG_MAX then ['-' as int] else if plus then ['+' as int] else []
  {
  }

  lemma PadIs(c: Byte, n: int)
    ensures Pad(c, n) == seq(Most(n, 0), _ => c)
  {
  }

  function Most(a: int, b: int): int {
    if a < b then b else a
  }

  // ----- printing -----

  /** In base 7 or more the digits of a 32-bit number fit the 12 characters of tmp. */
  lemma TwelveDigits(v: nat, radix: nat)
    requires 7 <= radix && v < U32
    ensures |DigitsOf(v, radix)| <= 12
  {
    assert U32 <= Pow(7, 12) by {
      assert Pow(7, 3) == 343 && Pow(7, 6) == 117649;
      assert Pow(7, 9) == 40353607;
    }
    DigitsLength(v, radix, 7, 12);
  }

  /** In base 6 they need not: the largest number has 13. */
  lemma ThirteenDigits()
    ensures |DigitsOf(ULONG_MAX, 6)| == 13
  {
    hide DigitsOf;
    SixthPart(ULONG_MAX, 715827882, 3);
    SixthPart(715827882, 119304647, 0);
    SixthPart(119304647, 19884107, 5);
    SixthPart(19884107, 3314017, 5);
    SixthPart(3314017, 552336, 1);
    SixthPart(552336, 92056, 0);
    SixthPart(92056, 15342, 4);
    SixthPart(15342, 2557, 0);
    SixthPart(2557, 426, 1);
    SixthPart(426, 71, 0);
    SixthPart(71, 11, 5);
    SixthPart(11, 1, 5);
    Peel(1, 6);
  }

  lemma SixthPart(v: nat, q: nat, d: nat)
    requires v == 6 * q + d && d < 6 && 0 < q
    ensures |DigitsOf(v, 6)| == |DigitsOf(q, 6)| + 1
  {
    Peel(v, 6);
    assert v / 6 == q;
  }

  /** The digits of v fit the 12 places of tmp. */
  predicate FitsTmp(v: nat, radix: nat): (fits: bool)
    ensures fits ==> 2 <= radix
  {
    2 <= radix && |DigitsOf(v, radix)| <= 12
  }

  /** The digits of v go into tmp, least significant first. */
  method CollectDigits(v: nat, radix: nat) returns (tmp: array<Byte>, i: nat)
    requires v < U32 && FitsTmp(v, radix)
    ensures fresh(tmp) && tmp.Length == 12 && i == |DigitsOf(v, radix)| <= 12
    ensures forall k | 0 <= k < i :: tmp[k] == ToDigit(DigitsOf(v, radix)[i - 1 - k])
  {
    hide DigitsOf, ToDigit;
    tmp := new Byte[12](_ => 0);
    i := 0;
    if v == 0 {
      Peel(0, radix);
      tmp[i] := 48;
      i := i + 1;
      ZeroDigit(radix);
    } else {
      var w: int := v;
      ghost var ds: seq<int> := [];
      while w > 0
        invariant 0 <= w <= v && i == |ds| <= 12 && forall k | 0 <= k < i :: 0 <= ds[k] < radix
        invariant i == 0 ==> w == v
        invariant 0 < i ==> DigitsOf(v, radix) == (if w == 0 then ds else DigitsOf(w, radix) + ds)
        invariant forall k | 0 <= k < i :: tmp[k] == ToDigit(ds[i - 1 - k])
      {
        Peel(w, radix);
        DivLess(w, radix);
        Regroup(DigitsOf(w / radix, radix), w % radix, ds);
        tmp[i] := ToDigit(w % radix);
        ds := [w % radix] + ds;
        i := i + 1;
        w := w / radix;
      }
    }
  }

  lemma ZeroDigit(radix: nat)
    requires 2 <= radix
    ensures DigitsOf(0, radix) == [0] && ToDigit(0) == 48
  {
  }

  /** The buffer holds text, followed by what it held before. */
  predicate Written(buffer: seq<Byte>, was: seq<Byte>, text: seq<Byte>) {
    |buffer| == |was| && |text| <= |was| && buffer == text + was[|text|..]
  }

  /** One more character of text; what comes after it is as before. */
  method Put(buffer: array<Byte>, p: nat, c: Byte, ghost was: seq<Byte>, ghost text: seq<Byte>)
    requires p == |text| < buffer.Length && Written(buffer[..], was, text)
    modifies buffer
    ensures Written(buffer[..], was, text + [c])
  {
    buffer[p] := c;
    assert buffer[..] == text + [c] + was[|text| + 1..];
  }

  /** The padding that a loop adds when the flags want it. */
  function Padding(wanted: bool, c: Byte, n: int): seq<Byte> {
    if wanted then Pad(c, n) else []
  }

  /** Padding is appended up to the width, if the flags want it, and counted in ret. */
  method Fill(buffer: array<Byte>, p0: nat, wanted: bool, c: Byte, ret0: nat, width: int,
    ghost was: seq<Byte>, ghost text: seq<Byte>)
    returns (p: nat, ret: nat)
    requires p0 == |text| && p0 + |Padding(wanted, c, width - ret0)| <= buffer.Length && Written(buffer[..], was, text)
    modifies buffer
    ensures p == p0 + |Padding(wanted, c, width - ret0)| && ret == ret0 + |Padding(wanted, c, width - ret0)|
    ensures Written(buffer[..], was, text + Padding(wanted, c, width - ret0))
  {
    hide Written, Pad;
    p, ret := p0, ret0;
    PadParts(c, 0, text);
    if wanted {
      var j := ret;
      while j < width
        invariant j == ret && p - p0 == ret - ret0 && ret0 <= ret && (ret <= width || ret == ret0)
        invariant Written(buffer[..], was, text + Pad(c, ret - ret0))
      {
        PadParts(c, ret - ret0, text);
        Put(buffer, p, c, was, text + Pad(c, ret - ret0));
        p := p + 1;
        ret := ret + 1;
        j := j + 1;
      }
      PadParts(c, width - ret0, text);
    }
  }

  lemma PadParts(c: Byte, n: int, text: seq<Byte>)
    ensures n <= 0 ==> Pad(c, n) == [] && text + Pad(c, n) == text && Pad(c, n) == Pad(c, 0)
    ensures 0 <= n ==> text + Pad(c, n) + [c] == text + Pad(c, n + 1)
  {
    if 0 <= n {
      assert Pad(c, n) + [c] == Pad(c, n + 1);
      assert text + Pad(c, n) + [c] == text + (Pad(c, n) + [c]);
    }
  }

  /** ucvt writes the rendering and a NUL, and returns how many characters it wrote before the NUL. */
  method Ucvt(v: nat, buffer: array<Byte>, base: int, width: int, flags: Flags) returns (ret: nat)
    requires v < U32 && FitsTmp(Magnitude(v, base), AbsBase(base))
    requires |Rendering(v, base, width, flags)| < buffer.Length
    modifies buffer
    ensures ret == |Rendering(v, base, width, flags)|
    ensures Written(buffer[..], old(buffer[..]), Rendering(v, base, width, flags) + [0])
  {
    hide FitsTmp, DigitsOf, DigitBytes, ToDigit, Magnitude, Sign, Numeral, Pad, Padding, Rendering;
    hide Written, ToLong, LeadSpaces, LeadZeros;
    RenderingParts(v, base, width, flags);
    NumeralDigits(v, base);
    ghost var was, sign, num := buffer[..], Sign(v, base, flags.plus), Numeral(v, base);
    ghost var spaces, zeros := LeadSpaces(v, base, width, flags), LeadZeros(v, base, width, flags);
    var left := !flags.left;
    var absBase := if base >= 0 then base else -base;
    var n: int := v;
    var negative := base < 0 && ToLong(n) < 0;
    var absV: int := if negative then (-n) % U32 else n;
    var p: nat;
    p, ret := 0, if flags.plus || negative then 1 else 0;
    var tmp, i := CollectDigits(absV, absBase);
    ret := ret + i;
    StartWriting(was, spaces);
    p, ret := Fill(buffer, p, left && flags.space, 32, ret, width, was, []);
    p := PutSign(buffer, p, negative, flags.plus, sign, was, spaces);
    p, ret := Fill(buffer, p, left && flags.zero, 48, ret, width, was, spaces + sign);
    PutDigits(tmp, i, buffer, p, num, was, spaces + sign + zeros);
    p := p + i;
    p, ret := Fill(buffer, p, flags.space && !left, 32, ret, width, was, spaces + sign + zeros + num);
    Put(buffer, p, 0, was, Rendering(v, base, width, flags));
  }

  /** The sign is appended, if there is one. */
  method PutSign(buffer: array<Byte>, p0: nat, negative: bool, plus: bool, ghost sign: seq<Byte>,
    ghost was: seq<Byte>, ghost text: seq<Byte>)
    returns (p: nat)
    requires sign == (if negative then [45] else if plus then [43] else [])
    requires p0 == |text| && p0 + |sign| <= buffer.Length && Written(buffer[..], was, text)
    modifies buffer
    ensures p == p0 + |sign| && Written(buffer[..], was, text + sign)
  {
    hide Written;
    p := p0;
    if negative {
      Put(buffer, p, 45, was, text);
      p := p + 1;
    } else if plus {
      Put(buffer, p, 43, was, text);
      p := p + 1;
    } else {
      assert text + sign == text;
    }
  }

  lemma StartWriting(was: seq<Byte>, text: seq<Byte>)
    ensures Written(was, was, []) && [] + text == text
  {
  }

  method PutDigits(tmp: array<Byte>, i: nat, buffer: array<Byte>, p: nat, ghost num: seq<Byte>, ghost was: seq<Byte>,
    ghost text: seq<Byte>)
    requires tmp != buffer && i == |num| <= tmp.Length && p == |text| && p + i <= buffer.Length
    requires (forall k | 0 <= k < i :: tmp[k] == num[i - 1 - k]) && Written(buffer[..], was, text)
    modifies buffer
    ensures Written(buffer[..], was, text + num)
  {
    Itoa.CopyBack(tmp, i, buffer, p, num);
  }

  /** The parts of a rendering in the terms of the code. */
  lemma RenderingParts(v: nat, base: int, width: int, f: Flags)
    requires v < U32 && 2 <= AbsBase(base)
    ensures var n: int := v;
            var negative := base < 0 && ToLong(n) < 0;
            && Sign(v, base, f.plus) == (if negative then [45] else if f.plus then [43] else [])
            && Magnitude(v, base) == (if negative then (-n) % U32 else n)
    ensures var missing := width - (|Sign(v, base, f.plus)| + |Numeral(v, base)|);
            && LeadSpaces(v, base, width, f) == Padding(!f.left && f.space, 32, missing)
            && LeadZeros(v, base, width, f)
               == Padding(!f.left && f.zero, 48, missing - |LeadSpaces(v, base, width, f)|)
            && TrailSpaces(v, base, width, f)
               == Padding(f.left && f.space, 32,
                          missing - |LeadSpaces(v, base, width, f) + LeadZeros(v, base, width, f)|)
    ensures Rendering(v, base, width, f)
            == LeadSpaces(v, base, width, f) + Sign(v, base, f.plus) + LeadZeros(v, base, width, f) + Numeral(v, base)
               + TrailSpaces(v, base, width, f)
  {
    hide DigitsOf, Numeral;
  }

  lemma NumeralDigits(v: nat, base: int)
    requires v < U32 && 2 <= AbsBase(base)
    ensures forall k | 0 <= k < |Numeral(v, base)| ::
              Numeral(v, base)[k] == ToDigit(DigitsOf(Magnitude(v, base), AbsBase(base))[k])
  {
    hide DigitsOf, ToDigit, Magnitude;
  }

  /** dcvt: the same for longs, in the negated base. */
  method Dcvt(v: int, buffer: array<Byte>, base: int, width: int, flags: Flags) returns (ret: nat)
    requires LONG_MIN <= v <= LONG_MAX && FitsTmp(Magnitude(v % U32, -base), AbsBase(base))
    requires |Rendering(v % U32, -base, width, flags)| < buffer.Length
    modifies buffer
    ensures ret == |Rendering(v % U32, -base, width, flags)|
    ensures Written(buffer[..], old(buffer[..]), Rendering(v % U32, -base, width, flags) + [0])
  {
    ret := Ucvt(v % U32, buffer, -base, width, flags);
  }
}
