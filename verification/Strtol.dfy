/** strtol and strtoul on 32-bit longs. */
module Strtol {
  import opened Chars

  /** The value of a digit character, or -1: as the code assigns it, '[' to '`' count from 4. */
  function DigitOf(c: Byte): (d: int)
    ensures -1 <= d <= 35
  {
    if IsDigit(c) then c - 48 else if IsAlpha(c) then (if IsUpper(c) then c - 55 else c - 87) else -1
  }

  predicate InBase(c: Byte, base: int) {
    0 <= DigitOf(c) < base
  }

  /** The first position from i on that does not hold a space. */
  function SkipSpace(s: seq<Byte>, i: nat): (r: nat)
    requires i <= |s| && 0 in s[i..]
    ensures i <= r < |s| && !IsSpace(s[r]) && (forall j | i <= j < r :: IsSpace(s[j])) && 0 in s[r..]
    decreases |s| - i
  {
    if IsSpace(s[i]) then SkipSpace(s, i + 1) else i
  }

  lemma SkipOne(s: seq<Byte>, i: nat)
    requires i < |s| && 0 in s[i..]
    ensures IsSpace(s[i]) ==> 0 in s[i + 1..] && SkipSpace(s, i) == SkipSpace(s, i + 1)
    ensures !IsSpace(s[i]) ==> SkipSpace(s, i) == i
  {
    NotLast(s, i);
  }

  /** The end of the digit run that starts at i. */
  function RunEnd(s: seq<Byte>, i: nat, base: int): (r: nat)
    requires i <= |s| && 0 in s[i..]
    ensures i <= r < |s| && !InBase(s[r], base) && forall j | i <= j < r :: InBase(s[j], base)
    decreases |s| - i
  {
    if InBase(s[i], base) then RunEnd(s, i + 1, base) else i
  }

  function Digits(s: seq<Byte>): (r: seq<int>)
    ensures |r| == |s| && forall i | 0 <= i < |s| :: r[i] == DigitOf(s[i])
  {
    if s == [] then [] else [DigitOf(s[0])] + Digits(s[1..])
  }

  /** Where the digits start, whether a minus sign came before them, and the base they are read in. */
  datatype Header = Header(neg: bool, start: nat, base: int)

  function SkipSign(s: seq<Byte>, i: nat): nat
    requires i < |s|
  {
    if s[i] == 45 || s[i] == 43 then i + 1 else i
  }

  predicate HexPrefix(s: seq<Byte>, i: nat) {
    i + 1 < |s| && s[i] == 48 && (s[i + 1] == 120 || s[i + 1] == 88)
  }

  predicate Negative(s: seq<Byte>)
    requires Terminated(s)
  {
    assert s[0..] == s;
    s[SkipSpace(s, 0)] == 45
  }

  /** Where the number may start: after spaces and a sign. */
  function AfterSign(s: seq<Byte>): (j: nat)
    requires Terminated(s)
    ensures j < |s| && 0 in s[j..]
  {
    assert s[0..] == s;
    var i := SkipSpace(s, 0);
    NotLast(s, i);
    SkipSign(s, i)
  }

  function HeaderOf(s: seq<Byte>, base: int): (h: Header)
    requires Terminated(s)
    ensures h.start <= |s| && 0 in s[h.start..] && h.base != 0
  {
    var j := AfterSign(s);
    NotLast(s, j);
    if (base == 0 || base == 16) && HexPrefix(s, j) then
      NotLast(s, j + 1);
      Header(Negative(s), j + 2, 16)
    else Header(Negative(s), j, if base == 0 then (if s[j] == 48 then 8 else 10) else base)
  }

  /** What a conversion returns: the value, where it stopped, and whether errno was set to ERANGE. */
  datatype Parsed = Parsed(value: int, end: nat, range: bool)

  /** The number written by the digit run that ends at k. */
  function Magnitude(s: seq<Byte>, h: Header, k: nat): int
    requires h.start <= k <= |s|
  {
    Value(Digits(s[h.start..k]), h.base)
  }

  /** strtol: the number when it is a long, else the nearest limit. */
  function StrtolSpec(s: seq<Byte>, base: int): Parsed
    requires Terminated(s)
  {
    var h := HeaderOf(s, base);
    LongRead(s, h, RunEnd(s, h.start, h.base))
  }

  /** The long written by the digits up to k. */
  function LongRead(s: seq<Byte>, h: Header, k: nat): Parsed
    requires h.start <= k <= |s|
  {
    var v := if h.neg then -Magnitude(s, h, k) else Magnitude(s, h, k);
    if k == h.start then Parsed(0, 0, false)
    else if v < LONG_MIN then Parsed(LONG_MIN, k, true)
    else if v > LONG_MAX then Parsed(LONG_MAX, k, true)
    else Parsed(v, k, false)
  }

  /** strtoul: the number, negated modulo 2^32 after a minus sign, or ULONG_MAX. */
  function StrtoulSpec(s: seq<Byte>, base: int): Parsed
    requires Terminated(s)
  {
    var h := HeaderOf(s, base);
    UnsignedRead(s, h, RunEnd(s, h.start, h.base))
  }

  function UnsignedRead(s: seq<Byte>, h: Header, k: nat): Parsed
    requires h.start <= k <= |s|
  {
    var v := Magnitude(s, h, k);
    if k == h.start then Parsed(0, 0, false)
    else if v > ULONG_MAX then Parsed(ULONG_MAX, k, true)
    else Parsed(if h.neg then (-v) % U32 else v, k, false)
  }

  // ----- the code -----

  /** The cutoff test is exact: it holds just when one more digit would pass the limit. */
  lemma Cutoff(acc: int, c: int, base: int, limit: int)
    requires 1 <= base && 0 <= c < base && 0 <= acc && 0 <= limit
    ensures acc > limit / base || (acc == limit / base && c > limit % base) <==> acc * base + c > limit
  {
    var q, r := limit / base, limit % base;
    assert limit == q * base + r && 0 <= r < base;
    if acc > q {
      MulMono(q + 1, acc, base);
      assert (q + 1) * base == q * base + base;
    } else if acc < q {
      MulMono(acc + 1, q, base);
      assert (acc + 1) * base == acc * base + base;
    }
  }

  /** The position of the first character that is no space. */
  method Spaces(s: seq<Byte>) returns (i: nat)
    requires Terminated(s) && s[0..] == s
    ensures i == SkipSpace(s, 0)
  {
    hide SkipSpace;
    i := 0;
    while IsSpace(s[i])
      invariant i < |s| && 0 in s[i..] && SkipSpace(s, i) == SkipSpace(s, 0)
      decreases |s| - i
    {
      NotLast(s, i);
      SkipOne(s, i);
      i := i + 1;
    }
    SkipOne(s, i);
  }

  /** After the spaces, one sign is read. */
  method ReadSign(s: seq<Byte>) returns (neg: bool, i: nat)
    requires Terminated(s)
    ensures i == AfterSign(s) && neg == Negative(s)
  {
    hide SkipSpace, IsSpace;
    assert s[0..] == s;
    i := Spaces(s);
    NotLast(s, i);
    neg := false;
    if s[i] == 45 {
      neg := true;
      i := i + 1;
    } else if s[i] == 43 {
      i := i + 1;
    }
  }

  /** The part of both functions before the digits: returns the position of the current character c. */
  method Prologue(s: seq<Byte>, base0: int) returns (neg: bool, i: nat, base: int)
    requires Terminated(s)
    ensures HeaderOf(s, base0) == Header(neg, i, base) && (base == base0 || base == 8 || base == 10 || base == 16)
  {
    hide AfterSign, Negative;
    neg, i := ReadSign(s);
    base := base0;
    NotLast(s, i);
    if (base == 0 || base == 16) && s[i] == 48 && (s[i + 1] == 120 || s[i + 1] == 88) {
      i := i + 2;
      base := 16;
    }
    if base == 0 {
      base := if s[i] == 48 then 8 else 10;
    }
  }

  /** The digit loop: any is 0 without digits, 1 while the number fits and -1 after an overflow; acc never wraps. */
  method Accumulate(s: seq<Byte>, start: nat, base: int, cutoff: int, cutlim: int, ghost limit: int)
    returns (i: nat, acc: int, any: int)
    requires start <= |s| && 0 in s[start..] && 0 <= limit < U32
    requires 1 <= base ==> cutoff == limit / base && cutlim == limit % base
    ensures i == RunEnd(s, start, base)
    ensures (any == 0 <==> i == start) && (any == 0 ==> acc == 0)
    ensures any != 0 ==> (any < 0 <==> Value(Digits(s[start..i]), base) > limit)
    ensures any != 0 ==> 0 <= Value(Digits(s[start..i]), base)
    ensures 0 <= any ==> acc == Value(Digits(s[start..i]), base) && 0 <= acc <= limit
  {
    hide RunEnd, Value, Digits, InBase;
    i, acc, any := start, 0, 0;
    StartOfRun(s, start, base);
    while true
      invariant start <= i < |s| && 0 in s[i..] && RunEnd(s, i, base) == RunEnd(s, start, base)
      invariant (any == 0 <==> i == start) && (any == 0 ==> acc == 0)
      invariant forall j | start <= j < i :: InBase(s[j], base)
      invariant any < 0 ==> Value(Digits(s[start..i]), base) > limit
      invariant 0 <= any ==> acc == Value(Digits(s[start..i]), base) && 0 <= acc <= limit
      decreases |s| - i
    {
      RunStep(s, i, base);
      var c: int := s[i];
      if !(IsAlpha(c) || IsDigit(c)) {
        return;
      }
      if IsDigit(c) {
        c := c - 48;
      } else {
        c := c - (if IsUpper(c) then 55 else 87);
      }
      if c >= base {
        return;
      }
      DigitStep(s, start, i, base, acc, any, limit);
      if any < 0 || acc > cutoff || (acc == cutoff && c > cutlim) {
        any := -1;
      } else {
        any := 1;
        NoWrap(acc * base, c, limit);
        acc := (acc * base) % U32;
        acc := (acc + c) % U32;
      }
      i := i + 1;
    }
  }

  lemma NoWrap(m: int, c: int, limit: int)
    requires 0 <= m && 0 <= c && m + c <= limit < U32
    ensures m % U32 == m && (m % U32 + c) % U32 == m + c
  {
  }

  lemma StartOfRun(s: seq<Byte>, i: nat, base: int)
    requires i <= |s| && 0 in s[i..]
    ensures i < |s| && Value(Digits(s[i..i]), base) == 0
  {
  }

  lemma RunStep(s: seq<Byte>, i: nat, base: int)
    requires i < |s| && 0 in s[i..]
    ensures InBase(s[i], base) <==> 0 <= DigitOf(s[i]) < base
    ensures !InBase(s[i], base) ==> RunEnd(s, i, base) == i
    ensures InBase(s[i], base) ==> i + 1 < |s| && 0 in s[i + 1..] && RunEnd(s, i + 1, base) == RunEnd(s, i, base)
  {
    NotLast(s, i);
  }

  lemma {:induction false} DigitsSnoc(s: seq<Byte>, c: Byte)
    ensures Digits(s + [c]) == Digits(s) + [DigitOf(c)]
  {
  }

  /** One more digit: the value it makes, and that a number too large stays so. */
  lemma DigitStep(s: seq<Byte>, start: nat, i: nat, base: int, acc: int, any: int, limit: int)
    requires start <= i < |s| && 0 <= limit < U32 && 1 <= base && forall j | start <= j <= i :: InBase(s[j], base)
    requires any < 0 ==> Value(Digits(s[start..i]), base) > limit
    requires 0 <= any ==> acc == Value(Digits(s[start..i]), base) && 0 <= acc <= limit
    ensures var c, v := DigitOf(s[i]), Value(Digits(s[start..i + 1]), base);
            && (any < 0 ==> v > limit)
            && (0 <= any ==>
                  v == acc * base + c && 0 <= acc * base
                  && (acc > limit / base || (acc == limit / base && c > limit % base) <==> v > limit))
  {
    hide Digits;
    var ds, c := Digits(s[start..i]), DigitOf(s[i]);
    assert InBase(s[i], base);
    assert s[start..i + 1] == s[start..i] + [s[i]];
    DigitsSnoc(s[start..i], s[i]);
    assert forall j | 0 <= j < |ds| :: ds[j] == DigitOf(s[start..i][j]) && InBase(s[start + j], base);
    ValueGrows(ds, [c], base);
    hide Value;
    ValueSnoc(ds, c, base);
    if 0 <= any {
      MulMono(0, acc, base);
      Cutoff(acc, c, base, limit);
    }
  }

  /** The end of strtol: saturation, sign and cast give the specified long. */
  lemma LongResult(s: seq<Byte>, h: Header, k: nat, acc: int, any: int)
    requires h.start <= k <= |s| && (any == 0 <==> k == h.start) && (any == 0 ==> acc == 0)
    requires var v, limit := Magnitude(s, h, k), if h.neg then U32 / 2 else LONG_MAX;
             && (any != 0 ==> 0 <= v && (any < 0 <==> v > limit))
             && (0 <= any ==> acc == v && 0 <= acc <= limit)
    ensures var bits := if any < 0 then (if h.neg then LONG_MIN % U32 else LONG_MAX)
                        else if h.neg then (-acc) % U32 else acc;
            LongRead(s, h, k) == Parsed(ToLong(bits), if any != 0 then k else 0, any < 0)
  {
    hide Magnitude;
  }

  method Strtol(s: seq<Byte>, base0: int) returns (value: int, end: nat, range: bool)
    requires Terminated(s) && LONG_MIN <= base0 <= LONG_MAX
    ensures StrtolSpec(s, base0) == Parsed(value, end, range)
    ensures LONG_MIN <= value <= LONG_MAX
  {
    hide HeaderOf, RunEnd, Value, Digits, ToLong, LongRead;
    var neg, start, base := Prologue(s, base0);
    var ubase := base % U32;
    var limit := if neg then (-LONG_MIN) % U32 else LONG_MAX;
    var i, acc, any := start, 0, 0;
    UnsignedBase(base);
    var cutlim, cutoff := limit % ubase, limit / ubase;
    i, acc, any := Accumulate(s, start, base, cutoff, cutlim, limit);
    LongResult(s, Header(neg, start, base), i, acc, any);
    range := false;
    if any < 0 {
      acc := if neg then LONG_MIN % U32 else LONG_MAX;
      range := true;
    } else if neg {
      acc := (-acc) % U32;
    }
    value := ToLong(acc);
    end := if any != 0 then i else 0;
  }

  lemma UnsignedBase(base: int)
    requires base != 0 && -U32 < base < U32
    ensures base % U32 != 0 && (1 <= base ==> base % U32 == base)
  {
  }

  method Strtoul(s: seq<Byte>, base0: int) returns (value: int, end: nat, range: bool)
    requires Terminated(s) && LONG_MIN <= base0 <= LONG_MAX
    ensures StrtoulSpec(s, base0) == Parsed(value, end, range)
    ensures 0 <= value <= ULONG_MAX
  {
    hide HeaderOf, RunEnd, Value, Digits;
    var neg, start, base := Prologue(s, base0);
    UnsignedBase(base);
    var ubase := base % U32;
    var i, acc, any := Accumulate(s, start, base, ULONG_MAX / ubase, ULONG_MAX % ubase, ULONG_MAX);
    range := false;
    if any < 0 {
      acc := ULONG_MAX;
      range := true;
    } else if neg {
      acc := (-acc) % U32;
    }
    value := acc;
    end := if any != 0 then i else 0;
  }

  // ----- the characters between 'Z' and 'a' -----

  /** The digit value that the C standard gives a character: decimal digits and letters only. */
  function StandardDigit(c: Byte): int {
    if IsDigit(c) then c - 48
    else if IsUpper(c) then c - 55
    else if 97 <= c <= 122 then c - 87
    else -1
  }

  predicate StandardInBase(c: Byte, base: int) {
    0 <= StandardDigit(c) < base
  }

  function StandardRunEnd(s: seq<Byte>, i: nat, base: int): (r: nat)
    ensures i <= r && (i <= |s| ==> r <= |s|) && (forall j | i <= j < r :: j < |s| && StandardInBase(s[j], base))
    ensures r < |s| ==> !StandardInBase(s[r], base)
    decreases |s| - i
  {
    if i < |s| && StandardInBase(s[i], base) then StandardRunEnd(s, i + 1, base) else i
  }

  /** One of the six characters from '[' to '`' whose value in the code is a digit of the base. */
  predicate Stray(c: Byte, base: int) {
    91 <= c <= 96 && c - 87 < base
  }

  lemma DigitValues(c: Byte, base: int)
    ensures StandardInBase(c, base) ==> InBase(c, base) && DigitOf(c) == StandardDigit(c)
    ensures InBase(c, base) <==> StandardInBase(c, base) || Stray(c, base)
  {
  }

  /** The code and the standard read the same run of digits exactly when no stray character ends the standard one. */
  lemma {:induction false} SameRun(s: seq<Byte>, i: nat, base: int)
    requires i <= |s| && 0 in s[i..]
    ensures StandardRunEnd(s, i, base) <= RunEnd(s, i, base) < |s|
    ensures RunEnd(s, i, base) == StandardRunEnd(s, i, base) <==> !Stray(s[StandardRunEnd(s, i, base)], base)
    decreases |s| - i
  {
    hide StandardInBase, InBase, Stray;
    DigitValues(s[i], base);
    NotLast(s, i);
    if StandardInBase(s[i], base) {
      NulEnds(base);
      SameRun(s, i + 1, base);
    }
  }

  lemma NulEnds(base: int)
    ensures !StandardInBase(0, base) && !InBase(0, base)
  {
  }

  // ----- the C standard's reading -----

  predicate WhiteSpace(c: int) {
    c == ' ' as int || c == '\t' as int || c == '\n' as int || c == 11 || c == 12 || c == '\r' as int
  }

  /** The number of white-space characters that s begins with. */
  function Leading(s: seq<Byte>): (n: nat)
    ensures n <= |s|
  {
    if s != [] && WhiteSpace(s[0]) then 1 + Leading(s[1..]) else 0
  }

  predicate At(s: seq<Byte>, i: int, c: char) {
    0 <= i < |s| && s[i] == c as int
  }

  /** The position after white space and an optional sign. */
  function NumberStart(s: seq<Byte>): nat {
    if At(s, Leading(s), '-') || At(s, Leading(s), '+') then Leading(s) + 1 else Leading(s)
  }

  /** A 0x, and whether a hexadecimal digit follows it. */
  predicate ZeroX(s: seq<Byte>, j: nat) {
    At(s, j, '0') && (At(s, j + 1, 'x') || At(s, j + 1, 'X'))
  }

  predicate HexFollows(s: seq<Byte>, j: nat) {
    j + 2 < |s| && 0 <= StandardDigit(s[j + 2]) < 16
  }

  /** In bases 0 and 16 a 0x before a hexadecimal digit is a prefix; in base 0 it makes the number hexadecimal, any
      other leading 0 makes it octal, and without one it is decimal. */
  function StandardHeader(s: seq<Byte>, base: int): Header {
    var neg, j := At(s, Leading(s), '-'), NumberStart(s);
    if (base == 0 || base == 16) && ZeroX(s, j) && HexFollows(s, j) then Header(neg, j + 2, 16)
    else if base != 0 then Header(neg, j, base)
    else Header(neg, j, if At(s, j, '0') then 8 else 10)
  }

  /** The number that the characters from i to k write. */
  function StandardValue(s: seq<Byte>, i: nat, k: nat, base: int): int {
    if i < k <= |s| then StandardValue(s, i, k - 1, base) * base + StandardDigit(s[k - 1]) else 0
  }

  function Clamped(v: int, least: int, greatest: int): int {
    if v < least then least else if v > greatest then greatest else v
  }

  /** strtol: the number, brought into the range of a long; the range flag says that it was outside. */
  function StandardStrtol(s: seq<Byte>, base: int): Parsed {
    var h := StandardHeader(s, base);
    var k := StandardRunEnd(s, h.start, h.base);
    var m := StandardValue(s, h.start, k, h.base);
    var v := if h.neg then -m else m;
    var r := Clamped(v, -0x8000_0000, 0x7FFF_FFFF);
    if k == h.start then Parsed(0, 0, false) else Parsed(r, k, r != v)
  }

  /** strtoul: the number, brought into the range of an unsigned long; a minus sign negates it there. */
  function StandardStrtoul(s: seq<Byte>, base: int): Parsed {
    var h := StandardHeader(s, base);
    var k := StandardRunEnd(s, h.start, h.base);
    var m := StandardValue(s, h.start, k, h.base);
    if k == h.start then Parsed(0, 0, false)
    else if m > 0xFFFF_FFFF then Parsed(0xFFFF_FFFF, k, true)
    else Parsed(if h.neg && m != 0 then 0x1_0000_0000 - m else m, k, false)
  }

  /** A 0x that the code skips although no hexadecimal digit follows it. */
  predicate EmptyPrefix(s: seq<Byte>, base: int) {
    (base == 0 || base == 16) && ZeroX(s, NumberStart(s)) && !HexFollows(s, NumberStart(s))
  }

  /** The standard digits end at a stray character, which the code reads on from. */
  predicate StrayEnd(s: seq<Byte>, base: int) {
    var h := StandardHeader(s, base);
    var k := StandardRunEnd(s, h.start, h.base);
    k < |s| && Stray(s[k], h.base)
  }

  lemma {:induction false} LeadingIs(s: seq<Byte>, i: nat)
    requires i <= |s| && 0 in s[i..]
    ensures Leading(s[i..]) == SkipSpace(s, i) - i
    decreases |s| - i
  {
    NotLast(s, i);
    if IsSpace(s[i]) {
      LeadingIs(s, i + 1);
      assert s[i..][1..] == s[i + 1..];
    }
  }

  lemma StartIs(s: seq<Byte>)
    requires Terminated(s)
    ensures NumberStart(s) == AfterSign(s) && At(s, Leading(s), '-') == Negative(s)
  {
    assert s[0..] == s;
    LeadingIs(s, 0);
    hide SkipSpace, Leading;
  }

  lemma ZeroXIs(s: seq<Byte>, j: nat)
    requires j < |s|
    ensures ZeroX(s, j) == HexPrefix(s, j) && At(s, j, '0') == (s[j] == 48)
  {
  }

  /** Without an empty prefix the code finds the header of the standard; with one it starts after the x. */
  lemma HeaderIs(s: seq<Byte>, base: int)
    requires Terminated(s)
    ensures !EmptyPrefix(s, base) ==> HeaderOf(s, base) == StandardHeader(s, base)
    ensures EmptyPrefix(s, base) ==>
              HeaderOf(s, base) == Header(At(s, Leading(s), '-'), NumberStart(s) + 2, 16)
              && StandardHeader(s, base) == Header(At(s, Leading(s), '-'), NumberStart(s), if base == 0 then 8 else 16)
              && 0 in s[NumberStart(s)..]
  {
    StartIs(s);
    ZeroXIs(s, AfterSign(s));
    hide AfterSign, Negative, NumberStart, Leading, HexPrefix, ZeroX, HexFollows, At;
  }

  /** The standard digits write the same number for both. */
  lemma {:induction false} ValueIs(s: seq<Byte>, i: nat, k: nat, base: int)
    requires i <= k <= |s| && forall j | i <= j < k :: StandardInBase(s[j], base)
    ensures StandardValue(s, i, k, base) == Value(Digits(s[i..k]), base)
    ensures 1 <= base ==> 0 <= StandardValue(s, i, k, base)
    decreases k
  {
    if i < k {
      ValueIs(s, i, k - 1, base);
      ValueOneMore(s, i, k, base);
      DigitValues(s[k - 1], base);
      hide Value, Digits, StandardDigit;
      assert StandardInBase(s[k - 1], base);
      if 1 <= base { MulMono(0, StandardValue(s, i, k - 1, base), base); }
    } else {
      ValueOfNone(s, i, base);
    }
  }

  lemma ValueOneMore(s: seq<Byte>, i: nat, k: nat, base: int)
    requires i < k <= |s|
    ensures Value(Digits(s[i..k]), base) == Value(Digits(s[i..k - 1]), base) * base + DigitOf(s[k - 1])
  {
    hide Value, Digits;
    assert s[i..k] == s[i..k - 1] + [s[k - 1]];
    DigitsSnoc(s[i..k - 1], s[k - 1]);
    ValueSnoc(Digits(s[i..k - 1]), DigitOf(s[k - 1]), base);
  }

  lemma ValueOfNone(s: seq<Byte>, i: nat, base: int)
    requires i <= |s|
    ensures Value(Digits(s[i..i]), base) == 0
  {
  }

  /** Brought into range, the number is what the code makes of the same digits. */
  lemma StandardRead(s: seq<Byte>, base: int)
    requires var h := StandardHeader(s, base);
             h.start <= |s|
             && forall j | h.start <= j < StandardRunEnd(s, h.start, h.base) :: StandardInBase(s[j], h.base)
    ensures var h := StandardHeader(s, base);
            var k := StandardRunEnd(s, h.start, h.base);
            StandardStrtol(s, base) == LongRead(s, h, k) && StandardStrtoul(s, base) == UnsignedRead(s, h, k)
  {
    hide Value, Digits, StandardRunEnd, StandardHeader, StandardValue, InBase, DigitOf, StandardDigit;
    var h := StandardHeader(s, base);
    var k := StandardRunEnd(s, h.start, h.base);
    ValueIs(s, h.start, k, h.base);
    assert h.start < k ==> 1 <= h.base by { if h.start < k { assert StandardInBase(s[h.start], h.base); } }
  }

  /** The code takes an empty prefix as a prefix; the standard reads its 0 as the number. */
  lemma EmptyPrefixEnds(s: seq<Byte>, base: int)
    requires Terminated(s) && EmptyPrefix(s, base)
    ensures HeaderOf(s, base).start == NumberStart(s) + 2 && HeaderOf(s, base).base == 16
    ensures var h := StandardHeader(s, base);
            h.start == NumberStart(s) && StandardRunEnd(s, h.start, h.base) == NumberStart(s) + 1
  {
    HeaderIs(s, base);
    hide HeaderOf, Leading, NumberStart, StandardHeader;
    NotLast(s, NumberStart(s));
  }

  /** strtol and strtoul give what the C standard asks for exactly when there is no empty prefix and the standard digits
      end at no stray character. */
  lemma StandardExactly(s: seq<Byte>, base: int)
    requires Terminated(s)
    ensures StrtolSpec(s, base) == StandardStrtol(s, base) <==> !EmptyPrefix(s, base) && !StrayEnd(s, base)
    ensures StrtoulSpec(s, base) == StandardStrtoul(s, base) <==> !EmptyPrefix(s, base) && !StrayEnd(s, base)
  {
    hide HeaderOf, LongRead, UnsignedRead, StandardRunEnd, RunEnd, Stray, EmptyPrefix, StandardHeader, StandardStrtol,
      StandardStrtoul, Leading, NumberStart;
    var h, g := HeaderOf(s, base), StandardHeader(s, base);
    HeaderIs(s, base);
    StandardRead(s, base);
    ReadEnds(s, h, RunEnd(s, h.start, h.base));
    ReadEnds(s, g, StandardRunEnd(s, g.start, g.base));
    if EmptyPrefix(s, base) {
      EmptyPrefixEnds(s, base);
    } else {
      SameRun(s, h.start, h.base);
    }
  }

  /** Different runs are told apart by where the conversion stops. */
  lemma ReadEnds(s: seq<Byte>, h: Header, k: nat)
    requires h.start <= k <= |s|
    ensures LongRead(s, h, k).end == UnsignedRead(s, h, k).end == if k == h.start then 0 else k
  {
    hide Magnitude;
  }

  /** One empty prefix: "0x" in base 16 is no number for the code, and 0 for the standard. */
  lemma PrefixAlone()
    ensures var s: seq<Byte> := [48, 120, 0];
            Terminated(s) && StrtolSpec(s, 16) == Parsed(0, 0, false) && StandardStrtol(s, 16) == Parsed(0, 1, false)
  {
    var s: seq<Byte> := [48, 120, 0];
    assert s[2] == 0 && Leading(s) == 0;
    assert NumberStart(s) == 0 && EmptyPrefix(s, 16);
    hide NumberStart, Leading, EmptyPrefix, HeaderOf, StandardHeader, SkipSpace, AfterSign;
    HeaderIs(s, 16);
    assert s[2..] == [0] && RunEnd(s, 2, 16) == 2;
    assert StandardRunEnd(s, 1, 16) == 1 && StandardRunEnd(s, 0, 16) == 1;
    assert StandardValue(s, 0, 1, 16) == 0;
  }

  /** One string where they differ: strtol reads "[" as 4, where the standard finds no number. */
  lemma BracketIsFour()
    ensures var s: seq<Byte> := [91, 0];
            Terminated(s) && StrtolSpec(s, 10) == Parsed(4, 1, false) && StandardStrtol(s, 10) == Parsed(0, 0, false)
  {
    var s: seq<Byte> := [91, 0];
    assert s[1] == 0 && s[0..] == s && s[1..] == [0];
    assert HeaderOf(s, 10) == Header(false, 0, 10);
    assert RunEnd(s, 1, 10) == 1 && RunEnd(s, 0, 10) == 1 && StandardRunEnd(s, 0, 10) == 0;
    assert Digits(s[0..1]) == [4] && [4][..0] == [];
  }
}
