/** Parsing integers from text, and the round trip with formatting. */
module LongParse {
  import opened Digits
  import opened LongCore
  import opened LongSum
  import opened LongDiv
  import opened LongPower
  import opened LongBits
  import opened LongShift
  import opened LongText

  // ----- what the text means -----

  predicate IsSpace(ch: char) {
    ch == ' ' || ch == '\t' || ch == '\n' || ch == '\r' || ch as int == 11 || ch as int == 12
  }

  /** The first position from i on that is not a space. */
  function SkipSpace(s: string, i: nat): (j: nat)
    requires i <= |s|
    ensures i <= j <= |s|
    decreases |s| - i
  {
    if i < |s| && IsSpace(s[i]) then SkipSpace(s, i + 1) else i
  }

  /** The end of the run of digits from i on. */
  function DigitsEnd(s: string, i: nat, base: int): (j: nat)
    requires i <= |s|
    ensures i <= j <= |s|
    decreases |s| - i
  {
    if i < |s| && IsDigit(s[i], base) then DigitsEnd(s, i + 1, base) else i
  }

  /** The C string character at i: the terminator at the end. */
  function At(s: string, i: nat): char {
    if i < |s| then s[i] else '\0'
  }

  /** Where the sign ends. */
  function SignEnd(s: string): (j: nat)
    ensures j <= |s|
  {
    var i := SkipSpace(s, 0);
    SkipSpace(s, if At(s, i) == '+' || At(s, i) == '-' then i + 1 else i)
  }

  function IsNegative(s: string): bool {
    At(s, SkipSpace(s, 0)) == '-'
  }

  /** The base in effect: base 0 is decided by the prefix. */
  function EffectiveBase(s: string, base: int): int {
    var i := SignEnd(s);
    if base != 0 then base
    else if At(s, i) != '0' then 10
    else if At(s, i + 1) == 'x' || At(s, i + 1) == 'X' then 16
    else 8
  }

  /** Where the digits start. */
  function Start(s: string, base: int): (j: nat)
    ensures j <= |s|
  {
    var i := SignEnd(s);
    if base == 16 && At(s, i) == '0' && (At(s, i + 1) == 'x' || At(s, i + 1) == 'X') then i + 2 else i
  }

  /** Only an optional long suffix and spaces follow the digits. */
  predicate EndsWell(s: string, j: nat)
    requires j <= |s|
  {
    var k := if At(s, j) == 'L' || At(s, j) == 'l' then j + 1 else j;
    SkipSpace(s, k) == |s|
  }

  /** Whether cstr2longp accepts s. */
  predicate Accepts(s: string, base0: int) {
    && (base0 == 0 || 2 <= base0 <= 36)
    && var base := EffectiveBase(s, base0);
       var start := Start(s, base);
       var end := DigitsEnd(s, start, base);
       end > start && EndsWell(s, end)
  }

  /** The integer an accepted string denotes. */
  function Meaning(s: string, base0: int): int {
    var base := EffectiveBase(s, base0);
    var start := Start(s, base);
    var v := StrVal(s[start..DigitsEnd(s, start, base)], base);
    if IsNegative(s) then -v else v
  }

  // ----- the scanner -----

  method SkipSpaces(s: string, start: nat) returns (i: nat)
    requires start <= |s|
    ensures i == SkipSpace(s, start)
  {
    i := start;
    while i < |s| && IsSpace(s[i])
      invariant i <= |s| && SkipSpace(s, i) == SkipSpace(s, start)
    {
      i := i + 1;
    }
  }

  lemma {:induction false} DigitRun(s: string, i: nat, base: int)
    requires i <= |s|
    ensures AllDigits(s[i..DigitsEnd(s, i, base)], base)
    ensures DigitsEnd(s, i, base) < |s| ==> !IsDigit(s[DigitsEnd(s, i, base)], base)
    decreases |s| - i
  {
    if i < |s| && IsDigit(s[i], base) {
      DigitRun(s, i + 1, base);
      assert s[i..DigitsEnd(s, i, base)] == [s[i]] + s[i + 1..DigitsEnd(s, i, base)];
    }
  }

  /** The digit loop for bases that are no powers of two: Horner's rule. */
  method ParseDigits(s: string, start: nat, base: int) returns (z: Long, end: nat)
    requires start <= |s| && 2 <= base <= 36
    ensures end == DigitsEnd(s, start, base)
    ensures fresh(z) && z.Norm() && z.dsize >= 0 && z.Value() == StrVal(s[start..end], base)
  {
    z := new Long(0);
    end := start;
    while end < |s| && IsDigit(s[end], base)
      invariant start <= end <= |s| && DigitsEnd(s, end, base) == DigitsEnd(s, start, base)
      invariant fresh(z) && z.Norm() && z.dsize >= 0 && z.Value() == StrVal(s[start..end], base)
    {
      z := MulAdd1(z, base, CharDigit(s[end]));
      assert s[start..end + 1][..end - start] == s[start..end];
      end := end + 1;
    }
  }

  /** bits_per_char by halving. */
  method BitsPerChar(base: int) returns (b: nat)
    requires 2 <= base <= 36 && PowerOfTwo(base)
    ensures 1 <= b <= 5 && Pow2(b) == base
  {
    var bits, n := -1, base;
    assert Pow2(0) == 1;
    while n != 0
      invariant n >= 0 && bits >= -1 && (n == 0 ==> bits >= 0 && Pow2(bits) == base)
      invariant n > 0 ==> PowerOfTwo(n) && n * Pow2(bits + 1) == base
      decreases n
    {
      if n > 1 { assert n / 2 * Pow2(bits + 2) == n * Pow2(bits + 1); }
      bits := bits + 1;
      n := n / 2;
    }
    b := bits;
    AtMostFiveBits(base, b);
  }

  /** State of the right-to-left packing loop: k digits full, the rest of the bits
      in the accumulator; t is the part of the text consumed. */
  ghost predicate Packed(z: seq<digit>, k: nat, accum: int, bits: nat, t: string, base: int, b: nat) {
    && k <= |z| && Val(z[..k]) + Scale(accum, k) == StrVal(t, base)
    && 0 <= accum < Pow2(bits) && 15 * k + bits == b * |t| && Pow2(b) == base
  }

  lemma {:induction false} PowOfPow2(base: int, b: nat, n: nat)
    requires Pow2(b) == base
    ensures IntPow(base, n) == Pow2(b * n)
  {
    if n == 0 {
      assert b * 0 == 0;
    } else {
      PowOfPow2(base, b, n - 1);
      assert b * n == b + b * (n - 1);
      Pow2Add(b, b * (n - 1));
    }
  }

  /** The place value of the next character. */
  lemma PackPlace(d: int, base: int, b: nat, k: nat, bits: nat, n: nat)
    requires Pow2(b) == base && 15 * k + bits == b * n
    ensures d * IntPow(base, n) == Scale(d * Pow2(bits), k)
  {
    PowOfPow2(base, b, n);
    TimesPow2(d, k, bits);
  }

  lemma PackRange(accum: int, d: int, bits: nat, b: nat)
    requires 0 <= accum < Pow2(bits) && 0 <= d < Pow2(b)
    ensures 0 <= accum + d * Pow2(bits) < Pow2(bits + b)
  {
    Pow2Add(bits, b);
    MulMono(d + 1, Pow2(b), Pow2(bits));
    Distribute(d, 1, Pow2(bits));
    MulMono(0, d, Pow2(bits));
  }

  lemma PackStep(z: seq<digit>, k: nat, accum: int, bits: nat, t: string, base: int, b: nat, c: char)
    requires Packed(z, k, accum, bits, t, base, b) && IsDigit(c, base)
    ensures Packed(z, k, accum + CharDigit(c) * Pow2(bits), bits + b, [c] + t, base, b)
  {
    var d := CharDigit(c);
    StrValCons(c, t, base);
    PackPlace(d, base, b, k, bits, |t|);
    ScaleAdd(accum, d * Pow2(bits), k);
    PackRange(accum, d, bits, b);
    BitsPlus(b, |t|);
    assert |[c] + t| == |t| + 1;
  }

  lemma BitsPlus(b: int, n: int)
    ensures b * (n + 1) == b * n + b
  {
  }

  /** Emit a full digit from the accumulator. */
  lemma PackEmit(z: seq<digit>, k: nat, accum: int, bits: nat, t: string, base: int, b: nat)
    requires Packed(z, k, accum, bits, t, base, b) && bits >= 15 && k < |z|
    ensures Packed(z[k := accum % 32768], k + 1, accum / 32768, bits - 15, t, base, b)
  {
    var d: digit := accum % 32768;
    assert z[k := d][..k + 1] == z[..k] + [d];
    ValSnoc(z[..k], d);
    Carry(k, d, accum / 32768, accum);
    Pow2Add(bits - 15, 15);
    Pow2Fifteen();
    SmallQuotient(accum, 32768, Pow2(bits - 15));
  }

  lemma PackOr(accum: nat, d: nat, bits: nat, b: nat)
    requires bits < 15 && 1 <= b <= 5 && accum < Pow2(bits) && d < Pow2(b)
    ensures Bitwise(Or, accum, d * Pow2(bits), bits + b) == accum + d * Pow2(bits)
    ensures accum + d * Pow2(bits) < 0x10_0000
  {
    OrDisjoint(d, accum, bits, bits + b);
    Pow2Mono(bits + b, 20);
    Pow2Add(5, 15);
    Pow2Fifteen();
    assert Pow2(5) == 32;
  }

  /** One turn of the packing loop: or the character in, emit a digit when full. */
  method PackChar(z: array<digit>, k0: nat, accum0: u32, bits0: nat, b: nat, base: int, c: char, ghost t: string)
    returns (k: nat, accum: u32, bits: nat)
    requires 1 <= b <= 5 && bits0 < 15 && IsDigit(c, base) && Packed(z[..], k0, accum0, bits0, t, base, b)
    requires b * (|t| + 1) <= 15 * z.Length
    modifies z
    ensures bits < 15 && Packed(z[..], k, accum, bits, [c] + t, base, b)
  {
    ghost var now := z[..];
    PackStep(now, k0, accum0, bits0, t, base, b, c);
    PackOr(accum0, CharDigit(c), bits0, b);
    k := k0;
    accum := ShiftedOr(accum0, CharDigit(c), bits0, b);
    bits := bits0 + b;
    if bits >= 15 {
      BitsPlus(b, |t|);
      PackEmit(now, k, accum, bits, [c] + t, base, b);
      var d: digit := accum % 32768;
      z[k] := d;
      assert z[..] == now[k := d];
      k := k + 1;
      accum := accum / 32768;
      bits := bits - 15;
    }
  }

  /** accum | (k << bits). */
  function ShiftedOr(accum: u32, d: nat, bits: nat, b: nat): (r: u32)
    requires bits < 15 && 1 <= b <= 5 && accum < Pow2(bits) && d < Pow2(b)
    ensures r == accum + d * Pow2(bits)
  {
    PackOr(accum, d, bits, b);
    Bitwise(Or, accum, d * Pow2(bits), bits + b)
  }

  /** The end of the packing loop: the last partial digit. The digit count was
      computed exactly, so the zero-filling loop that follows has nothing to do. */
  method PackRest(z: array<digit>, k0: nat, accum: u32, bits: nat, b: nat, base: int, ghost t: string)
    requires bits < 15 && Packed(z[..], k0, accum, bits, t, base, b)
    requires z.Length == (b * |t| + 14) / 15
    modifies z
    ensures Val(z[..]) == StrVal(t, base)
  {
    ghost var low := z[..k0];
    if bits != 0 {
      Pow2Mono(bits, 14);
      Pow2Fifteen();
      z[k0] := accum;
      ValSnoc(low, accum);
      assert z[..] == low + [z[k0]];
    } else {
      assert z[..] == low;
      ScaleZero(k0);
    }
  }

  /** long_from_binary_base: pack the bits of the digit run, from its right end. */
  method LongFromBinaryBase(s: string, start: nat, base: int) returns (z: Long, end: nat)
    requires start <= |s| && 2 <= base <= 36 && PowerOfTwo(base)
    ensures end == DigitsEnd(s, start, base)
    ensures fresh(z) && z.Norm() && z.dsize >= 0 && z.Value() == StrVal(s[start..end], base)
  {
    var b := BitsPerChar(base);
    end := FindEnd(s, start, base);
    var n := (b * (end - start) + 14) / 15;
    z := new Long(n);
    DigitRun(s, start, base);
    PackAll(z.digit, s, start, end, base, b);
    assert z.Mag() == z.digit[..];
    z.Normalize();
  }

  method FindEnd(s: string, start: nat, base: int) returns (p: nat)
    requires start <= |s|
    ensures p == DigitsEnd(s, start, base)
  {
    p := start;
    while p < |s| && IsDigit(s[p], base)
      invariant p <= |s| && DigitsEnd(s, p, base) == DigitsEnd(s, start, base)
    {
      p := p + 1;
    }
  }

  method PackAll(z: array<digit>, s: string, start: nat, end: nat, base: int, b: nat)
    requires start <= end <= |s| && AllDigits(s[start..end], base) && 1 <= b <= 5 && Pow2(b) == base
    requires z.Length == (b * (end - start) + 14) / 15
    modifies z
    ensures Val(z[..]) == StrVal(s[start..end], base)
  {
    var accum: u32, bits, k, p := 0, 0, 0, end;
    PackStart(z[..], base, b);
    while p > start
      invariant start <= p <= end && bits < 15
      invariant Packed(z[..], k, accum, bits, s[p..end], base, b)
    {
      ghost var t := s[p..end];
      PackNext(s, start, p, end, base, b, z.Length);
      p := p - 1;
      k, accum, bits := PackChar(z, k, accum, bits, b, base, s[p], t);
    }
    PackRest(z, k, accum, bits, b, base, s[start..end]);
  }

  /** The character before position p, and the room for its bits. */
  lemma PackNext(s: string, start: nat, p: nat, end: nat, base: int, b: nat, len: nat)
    requires start < p <= end <= |s| && AllDigits(s[start..end], base) && len == (b * (end - start) + 14) / 15
    ensures IsDigit(s[p - 1], base) && s[p - 1..end] == [s[p - 1]] + s[p..end]
    ensures b * (|s[p..end]| + 1) <= 15 * len
  {
    assert s[start..end][p - 1 - start] == s[p - 1];
    MulMono(end - p + 1, end - start, b);
    assert (end - p + 1) * b == b * (end - p + 1) && (end - start) * b == b * (end - start);
  }

  lemma PackStart(z: seq<digit>, base: int, b: nat)
    requires Pow2(b) == base
    ensures Packed(z, 0, 0, 0, "", base, b)
  {
    assert Pow2(0) == 1 && b * 0 == 0;
  }

  /** Spaces, a sign, spaces, and the prefix of base 16 or 8. */
  method ParsePrefix(s: string, base0: int) returns (str: nat, sign: int, base: int)
    requires base0 == 0 || 2 <= base0 <= 36
    ensures str == Start(s, base) && base == EffectiveBase(s, base0) && (sign < 0 <==> IsNegative(s))
  {
    str := SkipSpaces(s, 0);
    sign := 1;
    if At(s, str) == '+' {
      str := str + 1;
    } else if At(s, str) == '-' {
      str := str + 1;
      sign := -1;
    }
    str := SkipSpaces(s, str);
    base := base0;
    if base == 0 {
      base := if At(s, str) != '0' then 10
              else if At(s, str + 1) == 'x' || At(s, str + 1) == 'X' then 16 else 8;
    }
    if base == 16 && At(s, str) == '0' && (At(s, str + 1) == 'x' || At(s, str + 1) == 'X') {
      str := str + 2;
    }
  }

  /** cstr2longp: parse a whole string (without terminator inside) in base 2 to 36,
      or in the base its prefix selects when base0 is 0. */
  method Cstr2Longp(s: string, base0: int) returns (z: Long?)
    ensures z != null <==> Accepts(s, base0)
    ensures z != null ==> z.Norm() && z.Value() == Meaning(s, base0)
  {
    if (base0 != 0 && base0 < 2) || base0 > 36 {
      return null;
    }
    var str, sign, base := ParsePrefix(s, base0);
    var v, end := ParseMagnitude(s, str, base);
    if end == str {
      return null;
    }
    SignOf(v);
    if sign < 0 && v.dsize != 0 {
      Negate(v);
    }
    var ok := Trailer(s, end);
    z := if ok then v else null;
  }

  /** The digits, by kind of base. */
  method ParseMagnitude(s: string, start: nat, base: int) returns (z: Long, end: nat)
    requires start <= |s| && 2 <= base <= 36
    ensures end == DigitsEnd(s, start, base)
    ensures fresh(z) && z.Norm() && z.dsize >= 0 && z.Value() == StrVal(s[start..end], base)
  {
    Pow2Mono(6, 32);
    assert Pow2(6) == 64;
    PowerTest(base, 32);
    if Bitwise(And, base, base - 1, 32) == 0 {
      z, end := LongFromBinaryBase(s, start, base);
    } else {
      z, end := ParseDigits(s, start, base);
    }
  }

  /** The optional long suffix and trailing spaces. */
  method Trailer(s: string, end: nat) returns (ok: bool)
    requires end <= |s|
    ensures ok <==> EndsWell(s, end)
  {
    var str := end;
    if At(s, str) == 'L' || At(s, str) == 'l' {
      str := str + 1;
    }
    str := SkipSpaces(s, str);
    ok := str == |s|;
  }

  // ----- the round trip -----

  lemma {:induction false} RunToEnd(s: string, i: nat, base: int)
    requires i <= |s| && forall k :: i <= k < |s| ==> IsDigit(s[k], base)
    ensures DigitsEnd(s, i, base) == |s|
    decreases |s| - i
  {
    if i < |s| {
      RunToEnd(s, i + 1, base);
    }
  }

  /** A digit is neither a space nor a sign. */
  lemma DigitIsPlain(ch: char, base: int)
    requires IsDigit(ch, base)
    ensures !IsSpace(ch) && ch != '+' && ch != '-'
  {
  }

  /** A numeral from position o on is read to the end, whatever the prefix rules. */
  lemma NumeralReads(s: string, o: nat, base: int, v: int)
    requires 2 <= base <= 36 && o <= |s| && IsNumeral(s[o..], base, v) && SignEnd(s) == o
    ensures EffectiveBase(s, base) == base && Start(s, base) == o
    ensures DigitsEnd(s, o, base) == |s| && EndsWell(s, |s|)
    ensures StrVal(s[o..|s|], base) == v
  {
    forall k | o <= k < |s|
      ensures IsDigit(s[k], base)
    {
      assert s[o..][k - o] == s[k];
    }
    RunToEnd(s, o, base);
    assert s[o..|s|] == s[o..];
    assert s[o] == s[o..][0];
    if s[o] == '0' {
      assert s[o..] == "0";
      assert |s| == o + 1;
    }
  }

  /** Every text that long_format may produce is accepted and means its number. */
  lemma TextReadsBack(s: string, base: int, v: int)
    requires 2 <= base <= 36 && IsText(s, base, v)
    ensures Accepts(s, base) && Meaning(s, base) == v
  {
    if v < 0 {
      assert s[1] == s[1..][0];
      DigitIsPlain(s[1], base);
      assert SkipSpace(s, 0) == 0 && SkipSpace(s, 1) == 1;
      NumeralReads(s, 1, base, -v);
    } else {
      DigitIsPlain(s[0], base);
      assert SkipSpace(s, 0) == 0;
      assert s[0..] == s;
      NumeralReads(s, 0, base, v);
    }
  }

  /** Format, then parse: the same number, for every integer, base and case. */
  method FormatThenParse(a: Long, base: int, upper: bool) returns (text: string, b: Long?)
    requires a.Norm() && 2 <= base <= 36
    ensures b != null && b.Norm() && b.Value() == a.Value()
  {
    text := LongFormat(a, base, upper);
    TextReadsBack(text, base, a.Value());
    b := Cstr2Longp(text, base);
  }

  // ----- spaces, signs and prefixes -----

  lemma {:induction false} SkipShift(c: char, s: string, i: nat)
    requires i <= |s|
    ensures SkipSpace([c] + s, i + 1) == SkipSpace(s, i) + 1
    decreases |s| - i
  {
    if i < |s| {
      assert ([c] + s)[i + 1] == s[i];
      if IsSpace(s[i]) { SkipShift(c, s, i + 1); }
    }
  }

  lemma {:induction false} DigitsShift(c: char, s: string, i: nat, base: int)
    requires i <= |s|
    ensures DigitsEnd([c] + s, i + 1, base) == DigitsEnd(s, i, base) + 1
    decreases |s| - i
  {
    if i < |s| {
      assert ([c] + s)[i + 1] == s[i];
      if IsDigit(s[i], base) { DigitsShift(c, s, i + 1, base); }
    }
  }

  /** One more character in front, which ends up before the digits: all else is read
      as before. */
  lemma Shifted(c: char, s: string, base0: int)
    requires SignEnd([c] + s) == SignEnd(s) + 1
    ensures EffectiveBase([c] + s, base0) == EffectiveBase(s, base0) && (Accepts([c] + s, base0) <==> Accepts(s, base0))
    ensures var base := EffectiveBase(s, base0);
            Magnitude([c] + s, base) == Magnitude(s, base)
  {
    var u, i, base := [c] + s, SignEnd(s), EffectiveBase(s, base0);
    AtShift(c, s, i);
    AtShift(c, s, i + 1);
    var start := Start(s, base);
    var end := DigitsEnd(s, start, base);
    assert Start(u, base) == start + 1;
    DigitsShift(c, s, start, base);
    EndShift(c, s, end);
    SliceShift(c, s, start, end);
  }

  lemma AtShift(c: char, s: string, i: nat)
    ensures At([c] + s, i + 1) == At(s, i)
  {
  }

  lemma EndShift(c: char, s: string, j: nat)
    requires j <= |s|
    ensures EndsWell([c] + s, j + 1) <==> EndsWell(s, j)
  {
    AtShift(c, s, j);
    SkipShift(c, s, j);
    if j < |s| { SkipShift(c, s, j + 1); }
  }

  lemma SliceShift(c: char, s: string, a: nat, b: nat)
    requires a <= b <= |s|
    ensures ([c] + s)[a + 1..b + 1] == s[a..b]
  {
  }

  /** The number the digits denote, without the sign. */
  function Magnitude(s: string, base: int): int {
    var start := Start(s, base);
    StrVal(s[start..DigitsEnd(s, start, base)], base)
  }

  /** A space in front changes nothing. */
  lemma SpaceInFront(c: char, s: string, base0: int)
    requires IsSpace(c)
    ensures Accepts([c] + s, base0) <==> Accepts(s, base0)
    ensures Meaning([c] + s, base0) == Meaning(s, base0)
  {
    var u, i := [c] + s, SkipSpace(s, 0);
    SkipShift(c, s, 0);
    assert SkipSpace(u, 0) == i + 1 && At(u, i + 1) == At(s, i);
    SkipShift(c, s, if At(s, i) == '+' || At(s, i) == '-' then i + 1 else i);
    Shifted(c, s, base0);
  }

  /** A sign in front of an unsigned text: the number, or its negative. */
  lemma SignInFront(c: char, s: string, base0: int)
    requires (c == '+' || c == '-') && s != "" && !IsSpace(s[0]) && s[0] != '+' && s[0] != '-'
    ensures Accepts([c] + s, base0) <==> Accepts(s, base0)
    ensures Meaning([c] + s, base0) == if c == '-' then -Meaning(s, base0) else Meaning(s, base0)
  {
    var u := [c] + s;
    SkipShift(c, s, 0);
    assert SkipSpace(s, 0) == 0 && SkipSpace(u, 0) == 0 && At(u, 0) == c;
    Shifted(c, s, base0);
  }

  /** Digits from position o of s to its end are read to the end. */
  lemma DigitsRead(s: string, o: nat, base: int)
    requires o < |s| && AllDigits(s[o..], base)
    ensures DigitsEnd(s, o, base) == |s| && EndsWell(s, |s|) && s[o..|s|] == s[o..]
  {
    forall k | o <= k < |s|
      ensures IsDigit(s[k], base)
    {
      assert s[o..][k - o] == s[k];
    }
    RunToEnd(s, o, base);
  }

  lemma NoSignAtDigit(s: string)
    requires s != "" && IsDigit(s[0], 36)
    ensures SignEnd(s) == 0 && !IsNegative(s)
  {
    DigitIsPlain(s[0], 36);
    assert SkipSpace(s, 0) == 0;
  }

  /** With base 0 the text decides: hexadecimal behind 0x or 0X, */
  lemma HexPrefix(x: char, t: string)
    requires (x == 'x' || x == 'X') && t != "" && AllDigits(t, 16)
    ensures var s := ['0', x] + t; Accepts(s, 0) && Meaning(s, 0) == StrVal(t, 16) && Accepts(s, 16) && Meaning(s, 16) == StrVal(t, 16)
  {
    var s := ['0', x] + t;
    NoSignAtDigit(s);
    assert At(s, 0) == '0' && At(s, 1) == x && s[2..] == t;
    DigitsRead(s, 2, 16);
  }

  /** octal behind 0, */
  lemma OctalPrefix(t: string)
    requires AllDigits(t, 8)
    ensures var s := ['0'] + t; Accepts(s, 0) && Meaning(s, 0) == StrVal(t, 8)
  {
    var s := ['0'] + t;
    NoSignAtDigit(s);
    if t != "" { assert At(s, 1) == t[0] && IsDigit(t[0], 8); }
    assert s[0..] == s && AllDigits(s, 8);
    DigitsRead(s, 0, 8);
    StrValCons('0', t, 8);
  }

  /** decimal otherwise. */
  lemma DecimalDefault(t: string)
    requires t != "" && t[0] != '0' && AllDigits(t, 10)
    ensures Accepts(t, 0) && Meaning(t, 0) == StrVal(t, 10)
  {
    NoSignAtDigit(t);
    assert t[0..] == t;
    DigitsRead(t, 0, 10);
  }

  lemma {:induction false} RunStops(t: string, tail: string, i: nat, base: int)
    requires i <= |t| && AllDigits(t[i..], base) && tail != "" && !IsDigit(tail[0], base)
    ensures DigitsEnd(t + tail, i, base) == |t|
    decreases |t| - i
  {
    if i < |t| {
      assert (t + tail)[i] == t[i] == t[i..][0] && t[i..][1..] == t[i + 1..];
      RunStops(t, tail, i + 1, base);
    } else {
      assert (t + tail)[i] == tail[0];
    }
  }

  /** Behind the digits: a long suffix or a space is read over, any other character
      that is no digit refuses the text. */
  lemma OneMoreBehind(t: string, c: char, base: int)
    requires 2 <= base <= 36 && t != "" && AllDigits(t, base) && !IsDigit(c, base)
    requires base == 16 ==> t != "0" || (c != 'x' && c != 'X')
    ensures Accepts(t + [c], base) <==> c == 'L' || c == 'l' || IsSpace(c)
    ensures Meaning(t + [c], base) == StrVal(t, base)
  {
    var s := t + [c];
    NoSignAtDigit(s);
    assert t[0..] == t && s[0] == t[0] && s[|t|] == c;
    if |t| > 1 { assert s[1] == t[1]; }
    RunStops(t, [c], 0, base);
    assert s[0..|t|] == t;
    assert SkipSpace(s, |s|) == |s|;
  }
}
