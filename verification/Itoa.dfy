/** itoa, and that strtol and strtoul read back what it prints. */
module Itoa {
  import opened Arithmetic
  import opened Chars
  import opened Strtol

  function DigitChar(d: int): Byte
    requires 0 <= d < 36
  {
    if d < 10 then d + 48 else d + 87
  }

  function DigitChars(ds: seq<int>): (r: seq<Byte>)
    requires forall i | 0 <= i < |ds| :: 0 <= ds[i] < 36
    ensures |r| == |ds| && forall i | 0 <= i < |ds| :: r[i] == DigitChar(ds[i])
  {
    seq(|ds|, i requires 0 <= i < |ds| => DigitChar(ds[i]))
  }

  predicate Radix(radix: int) {
    2 <= radix <= 36
  }

  /** The magnitude printed: only radix 10 prints a sign, the others the 32 bits as they are. */
  function Printed(value: int, radix: int): nat {
    if radix == 10 && value < 0 then -value else value % U32
  }

  function Characters(value: int, radix: int): seq<Byte>
    requires Radix(radix)
  {
    (if radix == 10 && value < 0 then [45] else []) + DigitChars(DigitsOf(Printed(value, radix), radix))
  }

  /** Any 32-bit number fits the 33 characters of tmp. */
  lemma ThirtyTwoDigits(v: nat, radix: nat)
    requires 2 <= radix && v < U32
    ensures |DigitsOf(v, radix)| <= 32
  {
    assert Pow(2, 32) == U32 by {
      assert Pow(2, 8) == 256 && Pow(2, 16) == 65536 && Pow(2, 24) == 0x100_0000;
    }
    DigitsLength(v, radix, 2, 32);
  }

  // ----- the code -----

  /** The first loop: the digits go into tmp, least significant first. */
  method CollectDigits(v0: nat, radix: int) returns (tmp: array<Byte>, t: nat)
    requires Radix(radix) && v0 < U32
    ensures fresh(tmp) && tmp.Length == 33 && t == |DigitsOf(v0, radix)| <= 32
    ensures forall k | 0 <= k < t :: tmp[k] == DigitChar(DigitsOf(v0, radix)[t - 1 - k])
  {
    hide DigitsOf, DigitChar;
    ThirtyTwoDigits(v0, radix);
    tmp := new Byte[33](_ => 0);
    t := 0;
    var v := v0;
    ghost var ds: seq<int> := [];
    while v != 0 || t == 0
      invariant 0 <= v <= v0 && t == |ds| <= 32 && forall k | 0 <= k < t :: 0 <= ds[k] < radix
      invariant t == 0 ==> v == v0
      invariant 0 < t ==> DigitsOf(v0, radix) == (if v == 0 then ds else DigitsOf(v, radix) + ds)
      invariant forall k | 0 <= k < t :: tmp[k] == DigitChar(ds[t - 1 - k])
      decreases v + (if t == 0 then 1 else 0)
    {
      Peel(v, radix);
      DivLess(v, radix);
      Regroup(DigitsOf(v / radix, radix), v % radix, ds);
      var i := v % radix;
      v := v / radix;
      tmp[t] := DigitChar(i);
      ds := [i] + ds;
      t := t + 1;
    }
  }

  lemma CharactersAre(value: int, radix: int, v: nat)
    requires Radix(radix) && LONG_MIN <= value <= LONG_MAX
    requires v == if radix == 10 && value < 0 then (-value) % U32 else value % U32
    ensures Characters(value, radix)
            == (if radix == 10 && value < 0 then [45] else []) + DigitChars(DigitsOf(v, radix))
  {
    hide DigitsOf, DigitChars;
  }

  /** The digits leave tmp last one first: cs stands in the string where they went, and the rest is unchanged. */
  method CopyBack(tmp: array<Byte>, tp0: nat, str: array<Byte>, sp0: nat, ghost cs: seq<Byte>)
    requires tmp != str && tp0 == |cs| <= tmp.Length && sp0 + tp0 <= str.Length
    requires forall k | 0 <= k < tp0 :: tmp[k] == cs[tp0 - 1 - k]
    modifies str
    ensures str[..] == old(str[..sp0]) + cs + old(str[sp0 + tp0..])
  {
    var tp, sp := tp0, sp0;
    while tp > 0
      invariant 0 <= tp <= tp0 && sp == sp0 + (tp0 - tp)
      invariant str[..sp0] == old(str[..sp0]) && str[sp0 + tp0..] == old(str[sp0 + tp0..])
      invariant str[sp0..sp] == cs[..tp0 - tp]
    {
      tp := tp - 1;
      str[sp] := tmp[tp];
      assert str[sp0..sp + 1] == str[sp0..sp] + [cs[tp0 - 1 - tp]];
      sp := sp + 1;
    }
    assert str[..] == str[..sp0] + str[sp0..sp] + str[sp..];
  }

  /** The second half of itoa: the sign, the digits in reverse order and the closing NUL. */
  method Emit(tmp: array<Byte>, tp: nat, sign: bool, str: array<Byte>, ghost cs: seq<Byte>)
    requires tmp != str && tp == |cs| <= tmp.Length && (if sign then 1 else 0) + tp < str.Length
    requires forall k | 0 <= k < tp :: tmp[k] == cs[tp - 1 - k]
    modifies str
    ensures var all := (if sign then [45] else []) + cs;
            str[..] == all + [0] + old(str[..])[|all| + 1..]
  {
    var sp := 0;
    if sign {
      str[sp] := 45;
      sp := sp + 1;
    }
    assert str[..sp] == if sign then [45] else [];
    CopyBack(tmp, tp, str, sp, cs);
    sp := sp + tp;
    str[sp] := 0;
  }

  /** itoa; str is null when the caller passed a null buffer. */
  method Itoa(value: int, str: array?<Byte>, radix: int) returns (ok: bool)
    requires LONG_MIN <= value <= LONG_MAX
    requires str != null && Radix(radix) ==> |Characters(value, radix)| < str.Length
    modifies if str == null then {} else {str}
    ensures ok <==> Radix(radix) && str != null
    ensures ok ==> str[..] == Characters(value, radix) + [0] + old(str[..])[|Characters(value, radix)| + 1..]
    ensures !ok && str != null ==> str[..] == old(str[..])
  {
    hide DigitsOf, DigitChar, DigitChars, Characters, Printed;
    if radix > 36 || radix <= 1 {
      return false;
    }
    var sign := radix == 10 && value < 0;
    var v := if sign then (-value) % U32 else value % U32;
    var tmp, tp := CollectDigits(v, radix);
    if str == null {
      return false;
    }
    ghost var cs := DigitChars(DigitsOf(v, radix));
    CharactersAre(value, radix, v);
    Emit(tmp, tp, sign, str, cs);
    ok := true;
  }

  /** What is printed, with nothing said of how: a minus sign for a negative number in radix 10 and then the one numeral
      without leading zeros of the magnitude, or of the 32 bits in another radix, in decimal digits and small
      letters. */
  lemma PrintedIs(value: int, radix: int) returns (ds: seq<int>)
    requires Radix(radix) && LONG_MIN <= value <= LONG_MAX
    ensures forall i | 0 <= i < |ds| :: 0 <= ds[i] < radix
    ensures ds != [] && (ds[0] == 0 ==> ds == [0])
    ensures Value(ds, radix)
            == if radix != 10 then (if value < 0 then U32 + value else value) else if value < 0 then -value else value
    ensures var j := if radix == 10 && value < 0 then 1 else 0;
            && |Characters(value, radix)| == j + |ds| && (j == 1 ==> Characters(value, radix)[0] == '-' as int)
            && forall i | 0 <= i < |ds| ::
                 Characters(value, radix)[j + i] == "0123456789abcdefghijklmnopqrstuvwxyz"[ds[i]] as int
  {
    hide DigitsOf, Value, DigitChar;
    PrintedParts(value, radix);
    ds := DigitsOf(Printed(value, radix), radix);
    ValueOfDigits(Printed(value, radix), radix);
    LeadingDigit(Printed(value, radix), radix);
    if ds[0] == 0 { NumberZero(radix); }
    Letters();
  }

  lemma Letters()
    ensures forall d | 0 <= d < 36 :: DigitChar(d) == "0123456789abcdefghijklmnopqrstuvwxyz"[d] as int
  {
  }

  // ----- reading back -----

  lemma {:induction false} RunEndIs(s: seq<Byte>, i: nat, k: nat, base: int)
    requires i <= k < |s| && 0 in s[i..] && !InBase(s[k], base) && forall j | i <= j < k :: InBase(s[j], base)
    ensures RunEnd(s, i, base) == k
    decreases k - i
  {
    if i < k {
      NotLast(s, i);
      RunEndIs(s, i + 1, k, base);
    }
  }

  lemma DigitOfChar(d: int)
    requires 0 <= d < 36
    ensures DigitOf(DigitChar(d)) == d && !IsSpace(DigitChar(d)) && DigitChar(d) != 45 && DigitChar(d) != 43
    ensures DigitChar(d) == 48 <==> d == 0
  {
  }

  /** A numeral written by DigitChars and followed by NUL is read as the number it stands for. */
  lemma ReadsNumeral(s: seq<Byte>, i: nat, v: nat, radix: int)
    requires Radix(radix)
    requires var cs := DigitChars(DigitsOf(v, radix)); i + |cs| < |s| && s[i..i + |cs|] == cs && s[i + |cs|] == 0
    ensures var k := i + |DigitsOf(v, radix)|;
            0 in s[i..] && RunEnd(s, i, radix) == k && Value(Digits(s[i..k]), radix) == v && k > i
  {
    hide DigitsOf, DigitChar, Value;
    var ds := DigitsOf(v, radix);
    var cs := DigitChars(ds);
    var k := i + |ds|;
    assert s[i..][k - i] == s[k] == 0;
    forall j | i <= j < k ensures InBase(s[j], radix) && DigitOf(s[j]) == ds[j - i] {
      assert s[j] == s[i..k][j - i] == cs[j - i];
      DigitOfChar(ds[j - i]);
    }
    RunEndIs(s, i, k, radix);
    assert Digits(s[i..k]) == ds;
    ValueOfDigits(v, radix);
  }

  /** The header of a printed number: no space, a minus sign only in radix 10, no hexadecimal prefix. */
  lemma PrintedHeader(s: seq<Byte>, value: int, radix: int)
    requires Radix(radix) && LONG_MIN <= value <= LONG_MAX
    requires var cs := Characters(value, radix); |cs| < |s| && s[..|cs|] == cs && s[|cs|] == 0
    ensures Terminated(s)
    ensures var neg := radix == 10 && value < 0; HeaderOf(s, radix) == Header(neg, if neg then 1 else 0, radix)
  {
    hide DigitsOf, DigitChar;
    var neg, v := radix == 10 && value < 0, Printed(value, radix);
    var ds, cs := DigitsOf(v, radix), Characters(value, radix);
    var j := if neg then 1 else 0;
    assert s[|cs|] in s;
    assert s[0] == cs[0] && s[j] == cs[j] == DigitChar(ds[0]);
    DigitOfChar(ds[0]);
    assert s[0..] == s;
    LeadingDigit(v, radix);
    if v == 0 {
      NumberZero(radix);
      assert |ds| == 1 && s[j + 1] == 0;
    }
  }

  lemma NumberZero(radix: int)
    requires Radix(radix)
    ensures DigitsOf(0, radix) == [0]
  {
  }

  lemma PrintedParts(value: int, radix: int)
    requires Radix(radix) && LONG_MIN <= value <= LONG_MAX
    ensures var neg: bool, v: int := radix == 10 && value < 0, Printed(value, radix);
            && v <= ULONG_MAX && (neg ==> value % U32 == (-v) % U32) && (!neg ==> value % U32 == v)
            && (radix == 10 && !neg ==> v == value)
    ensures radix == 10 && value < 0 ==> Printed(value, radix) == -value
    ensures var cs, ds := Characters(value, radix), DigitChars(DigitsOf(Printed(value, radix), radix));
            var j := if radix == 10 && value < 0 then 1 else 0;
            |cs| == j + |ds| && cs[j..] == ds
  {
  }

  /** strtol(itoa(v, 10), 10) == v for every 32-bit v. */
  lemma StrtolReadsItoa(s: seq<Byte>, value: int)
    requires LONG_MIN <= value <= LONG_MAX
    requires var cs := Characters(value, 10); |cs| < |s| && s[..|cs|] == cs && s[|cs|] == 0
    ensures Terminated(s) && StrtolSpec(s, 10) == Parsed(value, |Characters(value, 10)|, false)
  {
    hide DigitsOf, HeaderOf, RunEnd, Value, Digits, Characters, Printed;
    PrintedHeader(s, value, 10);
    PrintedParts(value, 10);
    var cs, v := Characters(value, 10), Printed(value, 10);
    var j := if value < 0 then 1 else 0;
    assert s[j..|cs|] == cs[j..];
    ReadsNumeral(s, j, v, 10);
  }

  /** strtoul(itoa(v, r), r) == v mod 2^32 for every radix: a printed minus sign wraps back. */
  lemma StrtoulReadsItoa(s: seq<Byte>, value: int, radix: int)
    requires Radix(radix) && LONG_MIN <= value <= LONG_MAX
    requires var cs := Characters(value, radix); |cs| < |s| && s[..|cs|] == cs && s[|cs|] == 0
    ensures Terminated(s) && StrtoulSpec(s, radix) == Parsed(value % U32, |Characters(value, radix)|, false)
  {
    hide DigitsOf, HeaderOf, RunEnd, Value, Digits, Characters, Printed;
    PrintedHeader(s, value, radix);
    PrintedParts(value, radix);
    var cs, v := Characters(value, radix), Printed(value, radix);
    var j := if radix == 10 && value < 0 then 1 else 0;
    assert s[j..|cs|] == cs[j..];
    ReadsNumeral(s, j, v, radix);
  }
}
