/** Text of integers in bases 2 to 36: formatting into a buffer of precomputed
    size, from the last character backwards. */
module LongText {
  import opened Digits
  import opened LongCore
  import opened LongSum
  import opened LongDiv
  import opened LongPower
  import opened LongBits
  import opened LongShift

  // ----- numerals -----

  /** The character of a digit, as long_format writes it. */
  function DigitChar(d: nat, upper: bool): char
    requires d < 36
  {
    if d < 10 then ('0' as int + d) as char
    else ((if upper then 'A' else 'a') as int + d - 10) as char
  }

  /** The digit of a character, as both parsing loops read it; out of range for
      characters that are no digit. */
  function CharDigit(ch: char): int {
    if ch <= '9' then ch as int - '0' as int
    else if ch >= 'a' then ch as int - 'a' as int + 10
    else if ch >= 'A' then ch as int - 'A' as int + 10
    else -1
  }

  lemma CharRoundTrip(d: nat, upper: bool)
    requires d < 36
    ensures CharDigit(DigitChar(d, upper)) == d
    ensures DigitChar(d, upper) == '0' <==> d == 0
  {
  }

  predicate IsDigit(ch: char, base: int) {
    0 <= CharDigit(ch) < base
  }

  /** The number a digit string denotes, most significant digit first. */
  function StrVal(s: string, base: int): int {
    if s == [] then 0 else StrVal(s[..|s| - 1], base) * base + CharDigit(s[|s| - 1])
  }

  predicate AllDigits(s: string, base: int) {
    forall i :: 0 <= i < |s| ==> IsDigit(s[i], base)
  }

  /** The canonical numeral of v: digits only, no leading zero. */
  predicate IsNumeral(s: string, base: int, v: int) {
    && s != [] && AllDigits(s, base) && StrVal(s, base) == v
    && (s[0] == '0' ==> s == "0")
  }

  /** The text of an integer: its numeral, with a minus sign when negative. */
  predicate IsText(s: string, base: int, v: int) {
    if v < 0 then s != [] && s[0] == '-' && IsNumeral(s[1..], base, -v) else IsNumeral(s, base, v)
  }

  lemma {:induction false} StrValCons(c: char, s: string, base: int)
    ensures StrVal([c] + s, base) == CharDigit(c) * IntPow(base, |s|) + StrVal(s, base)
  {
    var t := [c] + s;
    if s == [] {
      assert t[..0] == [];
      assert IntPow(base, 0) == 1;
    } else {
      assert t[..|t| - 1] == [c] + s[..|s| - 1];
      StrValCons(c, s[..|s| - 1], base);
      HornerShift(CharDigit(c), IntPow(base, |s| - 1), StrVal(s[..|s| - 1], base), base);
    }
  }

  lemma HornerShift(c: int, p: int, v: int, b: int)
    ensures (c * p + v) * b == c * (b * p) + v * b
  {
  }

  lemma {:induction false} PowerPositive(base: int, n: nat)
    requires base >= 1
    ensures IntPow(base, n) >= 1
  {
    if n > 0 {
      PowerPositive(base, n - 1);
      MulMono(1, base, IntPow(base, n - 1));
    }
  }

  /** No letter of the other case. */
  predicate InCase(c: char, upper: bool) {
    if upper then !('a' <= c <= 'z') else !('A' <= c <= 'Z')
  }

  predicate Cased(s: string, upper: bool) {
    forall i :: 0 <= i < |s| ==> InCase(s[i], upper)
  }

  /** The digits as listed. */
  lemma DigitTable(d: nat)
    requires d < 36
    ensures DigitChar(d, false) == "0123456789abcdefghijklmnopqrstuvwxyz"[d]
    ensures DigitChar(d, true) == "0123456789ABCDEFGHIJKLMNOPQRSTUVWXYZ"[d]
  {
  }

  lemma SameDigit(x: char, y: char, upper: bool)
    requires IsDigit(x, 36) && IsDigit(y, 36) && CharDigit(x) == CharDigit(y) && InCase(x, upper) && InCase(y, upper)
    ensures x == y
  {
  }

  /** Digit strings of one value and length in one case are the same. */
  lemma {:induction false} SameDigits(s: string, t: string, base: int, upper: bool)
    requires 2 <= base <= 36 && |s| == |t| && AllDigits(s, base) && AllDigits(t, base) && Cased(s, upper) && Cased(t, upper)
    requires StrVal(s, base) == StrVal(t, base)
    ensures s == t
    decreases |s|
  {
    if s != [] {
      var n := |s| - 1;
      SameLast(s, t, base);
      SameDigits(s[..n], t[..n], base, upper);
      SameDigit(s[n], t[n], upper);
      assert s == s[..n] + [s[n]] && t == t[..n] + [t[n]];
    }
  }

  lemma SameLast(s: string, t: string, base: int)
    requires 2 <= base <= 36 && s != [] && |s| == |t| && AllDigits(s, base) && AllDigits(t, base)
    requires StrVal(s, base) == StrVal(t, base)
    ensures var n := |s| - 1; StrVal(s[..n], base) == StrVal(t[..n], base) && CharDigit(s[n]) == CharDigit(t[n])
  {
    var n := |s| - 1;
    var x, y, c, d := StrVal(s[..n], base), StrVal(t[..n], base), CharDigit(s[n]), CharDigit(t[n]);
    assert StrVal(s, base) == x * base + c && StrVal(t, base) == y * base + d;
    SameRest(x, y, c, d, base);
  }

  lemma SameRest(x: int, y: int, c: int, d: int, base: int)
    requires x * base + c == y * base + d && 0 <= c < base && 0 <= d < base
    ensures x == y && c == d
  {
    if x < y { MulMono(x + 1, y, base); }
    if y < x { MulMono(y + 1, x, base); }
  }

  /** A numeral without leading zero is as long as its value asks. */
  lemma NumeralRange(s: string, base: int, v: int)
    requires 2 <= base <= 36 && IsNumeral(s, base, v) && v > 0
    ensures IntPow(base, |s| - 1) <= v < IntPow(base, |s|)
  {
    var c, t := s[0], s[1..];
    assert s == [c] + t;
    StrValCons(c, t, base);
    StrValBound(t, base);
    PowerPositive(base, |t|);
    assert c != '0' && CharDigit(c) > 0;
    MulMono(1, CharDigit(c), IntPow(base, |t|));
    MulMono(CharDigit(c), base - 1, IntPow(base, |t|));
    LastPlace(base, IntPow(base, |t|));
  }

  lemma LastPlace(base: int, p: int)
    ensures (base - 1) * p + p == base * p
  {
  }

  lemma {:induction false} StrValBound(s: string, base: int)
    requires base >= 1 && AllDigits(s, base)
    ensures 0 <= StrVal(s, base) < IntPow(base, |s|)
    decreases |s|
  {
    if s == [] {
      assert IntPow(base, 0) == 1;
    } else {
      var n := |s| - 1;
      StrValBound(s[..n], base);
      HornerBound(StrVal(s[..n], base), CharDigit(s[n]), IntPow(base, n), base);
    }
  }

  lemma HornerBound(x: int, c: int, p: int, base: int)
    requires 0 <= x < p && 0 <= c < base
    ensures 0 <= x * base + c < base * p
  {
    MulMono(0, x, base);
    MulMono(x + 1, p, base);
  }

  /** A number has one numeral in each case, */
  lemma NumeralUnique(s: string, t: string, base: int, v: int, upper: bool)
    requires 2 <= base <= 36 && v >= 0 && IsNumeral(s, base, v) && IsNumeral(t, base, v) && Cased(s, upper) && Cased(t, upper)
    ensures s == t
  {
    if v == 0 {
      ZeroOnly(s, base);
      ZeroOnly(t, base);
    } else {
      NumeralRange(s, base, v);
      NumeralRange(t, base, v);
      if |s| < |t| { PowerGrows(base, |s|, |t| - 1); }
      if |t| < |s| { PowerGrows(base, |t|, |s| - 1); }
      SameDigits(s, t, base, upper);
    }
  }

  lemma ZeroOnly(s: string, base: int)
    requires 2 <= base <= 36 && IsNumeral(s, base, 0)
    ensures s == "0"
  {
    var c, t := s[0], s[1..];
    assert s == [c] + t;
    StrValCons(c, t, base);
    StrValBound(t, base);
    PowerPositive(base, |t|);
    if CharDigit(c) > 0 { MulMono(1, CharDigit(c), IntPow(base, |t|)); }
  }

  lemma {:induction false} PowerGrows(base: int, m: nat, n: nat)
    requires base >= 1 && m <= n
    ensures IntPow(base, m) <= IntPow(base, n)
    decreases n
  {
    if m < n {
      PowerGrows(base, m, n - 1);
      PowerPositive(base, n - 1);
      MulMono(1, base, IntPow(base, n - 1));
    }
  }

  /** and an integer one text: what long_format must give is determined. */
  lemma TextUnique(s: string, t: string, base: int, v: int, upper: bool)
    requires 2 <= base <= 36 && IsText(s, base, v) && IsText(t, base, v) && Cased(s, upper) && Cased(t, upper)
    ensures s == t
  {
    if v < 0 {
      assert Cased(s[1..], upper) && Cased(t[1..], upper);
      NumeralUnique(s[1..], t[1..], base, -v, upper);
      assert s == [s[0]] + s[1..] && t == [t[0]] + t[1..];
    } else {
      NumeralUnique(s, t, base, v, upper);
    }
  }

  // ----- writing backwards -----

  /** What has been written, text, and what is still to be written, rest, make up
      the total. Once nothing is left, the first character is not zero. */
  ghost predicate Written(text: string, upper: bool, base: int, rest: int, total: int) {
    && AllDigits(text, base) && Cased(text, upper) && rest >= 0
    && total == StrVal(text, base) + rest * IntPow(base, |text|)
    && (rest == 0 ==> text != [] && text[0] != '0')
  }

  lemma WriteStep(text: string, base: int, rest: int, total: int, q: int, c: nat, upper: bool)
    requires 2 <= base <= 36 && c < base && q >= 0 && rest == q * base + c
    requires rest > 0 && Written(text, upper, base, rest, total)
    ensures Written([DigitChar(c, upper)] + text, upper, base, q, total)
  {
    var p := IntPow(base, |text|);
    assert IntPow(base, |text| + 1) == base * p;
    CharRoundTrip(c, upper);
    assert InCase(DigitChar(c, upper), upper);
    StrValCons(DigitChar(c, upper), text, base);
    EmitOne(q, base, c, p);
  }

  lemma EmitOne(q: int, b: int, c: int, p: int)
    ensures (q * b + c) * p == c * p + q * (b * p)
  {
  }

  /** 2^bits <= base bounds the number of characters of a number of `size` digits:
      the buffer computed by long_format is large enough. */
  lemma RoomForOne(text: string, upper: bool, base: int, bits: nat, rest: int, total: int, size: nat)
    requires 1 <= bits && 2 <= base && Pow2(bits) <= base && rest > 0
    requires Written(text, upper, base, rest, total) && total < Pow(size)
    ensures |text| < (size * 15 + bits - 1) / bits
  {
    var n := |text|;
    PowerPositive(base, n);
    StrValNonNegative(text, base);
    MulMono(1, rest, IntPow(base, n));
    PowerAtLeast(base, bits, n);
    PowIsPow2(size);
    if bits * n >= 15 * size {
      Pow2Mono(15 * size, bits * n);
      assert false;
    }
    CeilDiv(n, bits, size * 15);
  }

  lemma CeilDiv(n: nat, b: nat, x: nat)
    requires b >= 1 && b * n < x
    ensures n < (x + b - 1) / b
  {
    var q := (x + b - 1) / b;
    assert q * b > x - 1;
    if q <= n { MulMono(q, n, b); }
  }

  lemma {:induction false} StrValNonNegative(s: string, base: int)
    requires AllDigits(s, base) && base > 0
    ensures StrVal(s, base) >= 0
  {
    if s != [] {
      StrValNonNegative(s[..|s| - 1], base);
      MulMono(0, StrVal(s[..|s| - 1], base), base);
    }
  }

  lemma {:induction false} PowerAtLeast(base: int, bits: nat, n: nat)
    requires Pow2(bits) <= base
    ensures Pow2(bits * n) <= IntPow(base, n)
  {
    if n > 0 {
      PowerAtLeast(base, bits, n - 1);
      assert bits * n == bits * (n - 1) + bits;
      Pow2Add(bits * (n - 1), bits);
      MulMono(Pow2(bits * (n - 1)), IntPow(base, n - 1), Pow2(bits));
      MulMono(Pow2(bits), base, IntPow(base, n - 1));
    } else {
      assert bits * 0 == 0;
    }
  }

  /** The running buffer of long_format: written from the end towards the front. */
  method Put(buf: array<char>, p: nat, c: char) returns (p': nat)
    requires 0 < p <= buf.Length
    modifies buf
    ensures p' == p - 1 && buf[p'..] == [c] + old(buf[p..])
  {
    p' := p - 1;
    buf[p'] := c;
  }

  /** bits is the number of bits a digit of the base has room for. */
  method FloorLog2(base: int) returns (bits: nat)
    requires base >= 2
    ensures bits >= 1 && Pow2(bits) <= base < Pow2(bits + 1)
  {
    var i := base;
    bits := 0;
    while i > 1
      invariant i >= 1 && i * Pow2(bits) <= base < (i + 1) * Pow2(bits)
      invariant bits == 0 ==> i == base
    {
      HalveStep(base, i, Pow2(bits));
      bits := bits + 1;
      i := i / 2;
    }
    assert (i + 1) * Pow2(bits) == Pow2(bits + 1);
  }

  lemma HalveStep(n: int, i: int, p: int)
    requires i * p <= n < (i + 1) * p && p > 0
    ensures i / 2 * (2 * p) <= n < (i / 2 + 1) * (2 * p)
  {
    assert i / 2 * (2 * p) == (2 * (i / 2)) * p;
    assert (i / 2 + 1) * (2 * p) == (2 * (i / 2) + 2) * p;
    MulMono(2 * (i / 2), i, p);
    MulMono(i + 1, 2 * (i / 2) + 2, p);
  }

  // ----- power-of-two bases -----

  predicate PowerOfTwo(x: nat) {
    x == 1 || (x > 0 && x % 2 == 0 && PowerOfTwo(x / 2))
  }

  lemma {:induction false} AndSelf(x: nat, n: nat)
    requires x < Pow2(n)
    ensures Bitwise(And, x, x, n) == x
  {
    if n > 0 {
      AndSelf(x / 2, n - 1);
    }
  }

  /** The C test base & (base - 1) recognises the powers of two. */
  lemma {:induction false} PowerTest(x: nat, n: nat)
    requires 0 < x < Pow2(n)
    ensures Bitwise(And, x, x - 1, n) == 0 <==> PowerOfTwo(x)
    decreases n
  {
    if n > 0 {
      if x % 2 == 0 {
        assert (x - 1) / 2 == x / 2 - 1;
        PowerTest(x / 2, n - 1);
      } else {
        assert (x - 1) / 2 == x / 2;
        AndSelf(x / 2, n - 1);
      }
    }
  }

  /** basebits: how many bits of the accumulator make one character. */
  method BaseBits(base: int) returns (basebits: nat)
    requires 2 <= base && PowerOfTwo(base)
    ensures basebits >= 1 && Pow2(basebits) == base
  {
    basebits := 1;
    var i := base / 2;
    while i > 1
      invariant i >= 1 && PowerOfTwo(i) && basebits >= 1 && 2 * i * Pow2(basebits - 1) == base
    {
      assert 2 * (i / 2) * Pow2(basebits) == 2 * i * Pow2(basebits - 1);
      i := i / 2;
      basebits := basebits + 1;
    }
  }

  /** The room long_format reserves: a rough bound on the characters, and five
      more. */
  ghost predicate HasRoom(buf: array<char>, base: int, bits: nat, size: nat) {
    bits >= 1 && Pow2(bits) <= base && buf.Length == 5 + (size * 15 + bits - 1) / bits
  }

  /** Write one character; the reserved room is never used up. */
  method Emit(buf: array<char>, p: nat, base: int, c: nat, upper: bool, ghost bits: nat, ghost size: nat,
              ghost rest: int, ghost q: int, ghost total: int) returns (p': nat)
    requires 2 <= base <= 36 && c < base && q >= 0 && rest == q * base + c && rest > 0
    requires p <= buf.Length && HasRoom(buf, base, bits, size) && total < Pow(size)
    requires Written(buf[p..], upper, base, rest, total)
    modifies buf
    ensures 5 <= p' <= buf.Length && Written(buf[p'..], upper, base, q, total)
  {
    RoomForOne(buf[p..], upper, base, bits, rest, total, size);
    WriteStep(buf[p..], base, rest, total, q, c, upper);
    p' := Put(buf, p, DigitChar(c, upper));
  }

  /** accum & (base - 1). */
  function LowBitsOf(accum: u32, base: int, bb: nat): (c: nat)
    requires 2 <= base && Pow2(bb) == base && bb <= 5
    ensures c == accum % base && c < base
  {
    AndLow(accum, bb, 32);
    Bitwise(And, accum, base - 1, 32)
  }

  lemma DivFacts(x: nat, b: nat)
    requires b >= 2
    ensures x == x / b * b + x % b && 0 <= x / b <= x && (x > 0 ==> x / b < x)
  {
    var q := x / b;
    assert x == q * b + x % b;
    MulMono(2, b, q);
  }

  lemma SplitRing(q: int, r: int, P: int, b: int, high: int)
    ensures (q * b + r) + (P * b) * high == (q + P * high) * b + r
  {
    assert (P * b) * high == (P * high) * b;
  }

  lemma SplitBits(accum: nat, base: int, bb: nat, ab: nat, high: int)
    requires Pow2(bb) == base && bb <= ab && accum < Pow2(ab) && high > 0
    ensures accum + Pow2(ab) * high == (accum / base + Pow2(ab - bb) * high) * base + accum % base
    ensures 0 <= accum / base < Pow2(ab - bb) && accum / base <= accum
    ensures accum + Pow2(ab) * high > 0 && accum / base + Pow2(ab - bb) * high > 0
  {
    Pow2Add(ab - bb, bb);
    SplitTop(accum, base, Pow2(ab - bb), Pow2(ab), high);
  }

  lemma SplitTop(accum: nat, base: int, c: nat, top: nat, high: int)
    requires base > 0 && c > 0 && top == c * base && accum < top && high > 0
    ensures accum + top * high == (accum / base + c * high) * base + accum % base
    ensures 0 <= accum / base < c && accum / base <= accum
    ensures accum + top * high > 0 && accum / base + c * high > 0
  {
    SmallQuotient(accum, base, c);
    SplitRing(accum / base, accum % base, c, base, high);
    TopFetched(c, high);
    TopFetched(top, high);
    NotLarger(accum, base);
  }

  lemma NotLarger(x: nat, b: nat)
    requires b > 0
    ensures x / b <= x
  {
    if x / b > x { MulMono(1, b, x / b); }
  }

  /** The inner loop of the power-of-two path below the top digit: characters
      while enough bits are left. */
  method EmitMiddle(buf: array<char>, p0: nat, base: int, bb: nat, accum0: u32, ab0: nat, upper: bool,
                    ghost bits: nat, ghost size: nat, ghost high: int, ghost total: int)
    returns (p: nat, accum: u32, ab: nat)
    requires 2 <= base <= 36 && 1 <= bb <= 5 && Pow2(bb) == base && bb <= ab0 && accum0 < Pow2(ab0) && high > 0
    requires p0 <= buf.Length && HasRoom(buf, base, bits, size) && total < Pow(size)
    requires Written(buf[p0..], upper, base, accum0 + Pow2(ab0) * high, total)
    modifies buf
    ensures 5 <= p <= buf.Length && ab < bb && accum < Pow2(ab)
    ensures Written(buf[p..], upper, base, accum + Pow2(ab) * high, total)
  {
    p, accum, ab := p0, accum0, ab0;
    var more := true;
    while more
      invariant p <= buf.Length && accum < Pow2(ab) && (more <==> bb <= ab)
      invariant !more ==> 5 <= p
      invariant Written(buf[p..], upper, base, accum + Pow2(ab) * high, total)
      decreases ab
    {
      ghost var rest, q := accum + Pow2(ab) * high, accum / base + Pow2(ab - bb) * high;
      SplitBits(accum, base, bb, ab, high);
      var c := LowBitsOf(accum, base, bb);
      p := Emit(buf, p, base, c, upper, bits, size, rest, q, total);
      ab := ab - bb;
      accum := accum / base;
      more := ab >= bb;
    }
  }

  /** The inner loop of the power-of-two path for the top digit: characters until
      nothing is left. */
  method EmitLast(buf: array<char>, p0: nat, base: int, bb: nat, accum0: u32, upper: bool,
                  ghost bits: nat, ghost size: nat, ghost total: int) returns (p: nat)
    requires 2 <= base <= 36 && 1 <= bb <= 5 && Pow2(bb) == base && accum0 > 0
    requires p0 <= buf.Length && HasRoom(buf, base, bits, size) && total < Pow(size)
    requires Written(buf[p0..], upper, base, accum0, total)
    modifies buf
    ensures 5 <= p <= buf.Length && Written(buf[p..], upper, base, 0, total)
  {
    p := p0;
    var accum := accum0;
    var more := true;
    while more
      invariant p <= buf.Length && (more <==> accum > 0) && (!more ==> 5 <= p)
      invariant Written(buf[p..], upper, base, accum, total)
      decreases accum
    {
      var c := LowBitsOf(accum, base, bb);
      DivFacts(accum, base);
      p := Emit(buf, p, base, c, upper, bits, size, accum, accum / base, total);
      accum := accum / base;
      more := accum > 0;
    }
  }

  /** Fetch the next digit into the accumulator. */
  method Fetch(accum: u32, ab: nat, d: digit) returns (word: u32)
    requires ab < 5 && accum < Pow2(ab)
    ensures word == accum + Pow2(ab) * d && word < Pow2(ab + 15)
  {
    Pow2Fifteen();
    OrDisjoint(d, accum, ab, ab + 15);
    Pow2Mono(ab + 15, 20);
    Pow2Add(5, 15);
    assert Pow2(5) == 32;
    word := Bitwise(Or, accum, Word(d, ab), ab + 15);
  }

  lemma FetchRest(accum: int, P: int, d: int, tail: int)
    ensures accum + P * (d + 32768 * tail) == (accum + P * d) + (32768 * P) * tail
  {
  }

  /** One turn of the power-of-two loop below the top digit. */
  method BinaryDigit(buf: array<char>, p0: nat, base: int, bb: nat, accum0: u32, ab0: nat, d: digit, upper: bool,
                     ghost bits: nat, ghost size: nat, ghost high: int, ghost total: int)
    returns (p: nat, accum: u32, ab: nat)
    requires 2 <= base <= 36 && 1 <= bb <= 5 && Pow2(bb) == base && ab0 < bb && accum0 < Pow2(ab0) && high > 0
    requires p0 <= buf.Length && HasRoom(buf, base, bits, size) && total < Pow(size)
    requires Written(buf[p0..], upper, base, (accum0 + Pow2(ab0) * d) + (32768 * Pow2(ab0)) * high, total)
    modifies buf
    ensures 5 <= p <= buf.Length && ab < bb && accum < Pow2(ab)
    ensures Written(buf[p..], upper, base, accum + Pow2(ab) * high, total)
  {
    Pow2Add(ab0, 15);
    Pow2Fifteen();
    accum := Fetch(accum0, ab0, d);
    p, accum, ab := EmitMiddle(buf, p0, base, bb, accum, ab0 + 15, upper, bits, size, high, total);
  }

  /** The power-of-two path of long_format. */
  method FormatBinary(a: Long, base: int, upper: bool, buf: array<char>, ghost bits: nat) returns (p: nat)
    requires a.Norm() && a.dsize != 0 && 2 <= base <= 36 && PowerOfTwo(base)
    requires HasRoom(buf, base, bits, Abs(a.dsize))
    modifies buf
    ensures 5 <= p <= buf.Length && Written(buf[p..], upper, base, 0, a.AbsVal())
  {
    ghost var s, total := a.Mag(), a.AbsVal();
    var size := Abs(a.dsize);
    var bb := BaseBits(base);
    AtMostFiveBits(base, bb);
    NormBounds(a);
    PowPos(size - 1);
    p := buf.Length;
    var accum: u32, accumbits, i := 0, 0, 0;
    StartText(s, upper, base);
    while i < size - 1
      invariant 0 <= i <= size - 1 && p <= buf.Length && accumbits < bb && accum < Pow2(accumbits)
      invariant Written(buf[p..], upper, base, accum + Pow2(accumbits) * Val(s[i..]), total)
    {
      TailDigit(s, i, accum, Pow2(accumbits));
      p, accum, accumbits := BinaryDigit(buf, p, base, bb, accum, accumbits, a.digit[i], upper,
                                         bits, size, Val(s[i + 1..]), total);
      i := i + 1;
    }
    TailDigit(s, i, accum, Pow2(accumbits));
    accum := Fetch(accum, accumbits, a.digit[i]);
    TopFetched(Pow2(accumbits), a.digit[i]);
    p := EmitLast(buf, p, base, bb, accum, upper, bits, size, total);
  }

  lemma AtMostFiveBits(base: int, bb: nat)
    requires Pow2(bb) == base <= 36
    ensures bb <= 5
  {
    assert Pow2(6) == 64;
    if bb > 5 { Pow2Mono(6, bb); }
  }

  lemma StartText(s: seq<digit>, upper: bool, base: int)
    requires s != [] && s[|s| - 1] != 0
    ensures Written([], upper, base, 0 + Pow2(0) * Val(s[0..]), Val(s))
  {
    assert s[0..] == s;
    assert Pow2(0) == 1 && IntPow(base, 0) == 1;
    ValTop(s);
    PowPos(|s| - 1);
  }

  lemma TailDigit(s: seq<digit>, i: nat, accum: int, P: int)
    requires i < |s| && s[|s| - 1] != 0
    ensures accum + P * Val(s[i..]) == (accum + P * s[i]) + (32768 * P) * Val(s[i + 1..])
    ensures if i + 1 == |s| then Val(s[i + 1..]) == 0 else Val(s[i + 1..]) > 0
  {
    assert s[i..] == [s[i]] + s[i + 1..];
    ValCons(s[i], s[i + 1..]);
    FetchRest(accum, P, s[i], Val(s[i + 1..]));
    if i + 1 < |s| {
      ValTop(s[i + 1..]);
      PowPos(|s| - i - 2);
    }
  }

  lemma TopFetched(P: int, d: int)
    requires P > 0 && d > 0
    ensures P * d > 0
  {
    MulMono(1, d, P);
  }

  // ----- other bases: repeated division -----

  /** The highest power of the base that fits a digit. */
  method PowerThatFits(base: int) returns (powbase: digit, power: nat)
    requires 2 <= base <= 36
    ensures power >= 1 && powbase == IntPow(base, power) && powbase > 0
  {
    powbase, power := base, 1;
    assert IntPow(base, 1) == base * IntPow(base, 0);
    while true
      invariant power >= 1 && powbase == IntPow(base, power) && powbase > 0
      decreases 32768 - powbase
    {
      NextPower(powbase, base);
      var newpow: u32 := powbase as int * base;
      if newpow >= 32768 {
        break;
      }
      powbase := newpow;
      power := power + 1;
    }
  }

  lemma NextPower(p: nat, base: int)
    requires 0 < p < 32768 && 2 <= base <= 36
    ensures p < p * base < 0x1_0000_0000
  {
    MulMono(2, base, p);
    MulMono(base, 36, p);
  }

  lemma ChunkStep(Q: int, B: int, p: int, rem: int)
    requires B >= 2 && 0 <= rem < B * p && Q >= 0 && p > 0
    ensures Q * (B * p) + rem == (Q * p + rem / B) * B + rem % B
    ensures 0 <= rem / B < p && Q * p + rem / B >= 0
    ensures Q > 0 || rem > 0 ==> Q * (B * p) + rem > 0
  {
    SmallQuotient(rem, p, B);
    QuotientLess(rem, B, p);
    Distribute(Q * p, rem / B, B);
    assert Q * (B * p) == Q * p * B;
    MulMono(0, Q, p);
    if Q > 0 { MulMono(1, Q, B * p); }
  }

  lemma QuotientLess(x: int, b: int, p: int)
    requires 0 <= x < b * p && b > 0
    ensures 0 <= x / b < p
  {
    SmallQuotient(x, b, p);
  }

  /** What is left to write: the quotient Q above t more characters of rem. */
  ghost function Left(Q: int, base: int, t: nat, rem: int): int {
    Q * IntPow(base, t) + rem
  }

  lemma LeftStep(Q: int, base: int, t: nat, rem: nat)
    requires base >= 2 && t > 0 && rem < IntPow(base, t) && Q >= 0 && (Q > 0 || rem > 0)
    ensures Left(Q, base, t, rem) == Left(Q, base, t - 1, rem / base) * base + rem % base
    ensures 0 <= rem / base < IntPow(base, t - 1) && rem / base <= rem
    ensures Left(Q, base, t, rem) > 0 && Left(Q, base, t - 1, rem / base) >= 0
  {
    PowerPositive(base, t - 1);
    ChunkStep(Q, base, IntPow(base, t - 1), rem);
    DivFacts(rem, base);
  }

  lemma LeftEnd(Q: int, base: int, t: nat, rem: nat)
    requires rem < IntPow(base, t) && (t == 0 || (Q == 0 && rem == 0))
    ensures Left(Q, base, t, rem) == Q
  {
    assert IntPow(base, 0) == 1;
    if t != 0 { assert 0 * IntPow(base, t) == 0; }
  }

  /** One character of a remainder. */
  method ChunkChar(buf: array<char>, p0: nat, base: int, rem0: digit, t: nat, upper: bool,
                   ghost bits: nat, ghost size: nat, ghost Q: int, ghost total: int) returns (p: nat, rem: digit)
    requires 2 <= base <= 36 && t > 0 && rem0 < IntPow(base, t) && Q >= 0 && (Q > 0 || rem0 > 0)
    requires p0 <= buf.Length && HasRoom(buf, base, bits, size) && total < Pow(size)
    requires Written(buf[p0..], upper, base, Left(Q, base, t, rem0), total)
    modifies buf
    ensures 5 <= p <= buf.Length && rem < IntPow(base, t - 1)
    ensures Written(buf[p..], upper, base, Left(Q, base, t - 1, rem), total)
  {
    LeftStep(Q, base, t, rem0);
    rem := rem0 / base;
    var c: nat := Remainder(rem0, rem, base);
    p := Emit(buf, p0, base, c, upper, bits, size, Left(Q, base, t, rem0), Left(Q, base, t - 1, rem), total);
  }

  /** rem - nextrem * base. */
  function Remainder(rem: digit, nextrem: digit, base: int): (c: nat)
    requires 2 <= base && nextrem == rem / base
    ensures c == rem % base && c < base
  {
    DivFacts(rem, base);
    rem as int - nextrem as int * base
  }

  /** Break one remainder into characters: `power` of them, or fewer when nothing
      is left above. Q is the quotient still to be formatted. */
  method EmitChunk(buf: array<char>, p0: nat, base: int, rem0: digit, power: nat, dsize: nat, upper: bool,
                   ghost bits: nat, ghost size: nat, ghost Q: int, ghost total: int) returns (p: nat)
    requires 2 <= base <= 36 && power >= 1 && rem0 < IntPow(base, power)
    requires Q >= 0 && (Q == 0 <==> dsize == 0) && (Q > 0 || rem0 > 0)
    requires p0 <= buf.Length && HasRoom(buf, base, bits, size) && total < Pow(size)
    requires Written(buf[p0..], upper, base, Left(Q, base, power, rem0), total)
    modifies buf
    ensures 5 <= p <= buf.Length && Written(buf[p..], upper, base, Q, total)
  {
    p := p0;
    var rem: digit, ntostore: nat := rem0, power;
    var more := true;
    while more
      invariant p <= buf.Length && rem < IntPow(base, ntostore) && (!more ==> 5 <= p)
      invariant more <==> ntostore > 0 && (dsize != 0 || rem != 0)
      invariant Written(buf[p..], upper, base, Left(Q, base, ntostore, rem), total)
      decreases ntostore
    {
      p, rem := ChunkChar(buf, p, base, rem, ntostore, upper, bits, size, Q, total);
      ntostore := ntostore - 1;
      more := ntostore > 0 && (dsize != 0 || rem != 0);
    }
    LeftEnd(Q, base, ntostore, rem);
  }

  /** One division by the digit power, in place after the first time; dsize
      shrinks with the quotient. */
  method DivideOnce(scratch: array<digit>, pin: array<digit>, dsize: nat, powbase: digit)
    returns (rem: digit, dsize': nat)
    requires 0 < dsize <= scratch.Length && dsize <= pin.Length && powbase > 0 && pin[dsize - 1] != 0
    modifies scratch
    ensures rem < powbase && dsize' <= dsize && (dsize' > 0 ==> scratch[dsize' - 1] != 0)
    ensures old(Val(pin[..dsize])) == Val(scratch[..dsize']) * powbase + rem
  {
    ghost var was := pin[..dsize];
    rem := InplaceDivRem1(scratch, pin, dsize, powbase);
    ghost var q := scratch[..dsize];
    QuotientTop(was, q, powbase, rem);
    dsize' := dsize;
    if scratch[dsize - 1] == 0 {
      dsize' := dsize - 1;
      ValZeroTail(q, dsize - 1);
      assert q[..dsize - 1] == scratch[..dsize - 1];
    }
  }

  /** The general path of long_format. */
  method FormatDivide(a: Long, base: int, upper: bool, buf: array<char>, ghost bits: nat) returns (p: nat)
    requires a.Norm() && a.dsize != 0 && 2 <= base <= 36
    requires HasRoom(buf, base, bits, Abs(a.dsize))
    modifies buf
    ensures 5 <= p <= buf.Length && Written(buf[p..], upper, base, 0, a.AbsVal())
  {
    ghost var total := a.AbsVal();
    var size := Abs(a.dsize);
    var powbase, power := PowerThatFits(base);
    var scratch := new digit[size];
    NormBounds(a);
    PowPos(size - 1);
    assert buf[buf.Length..] == [] && IntPow(base, 0) == 1;
    var dsize;
    p, dsize := DivideTurn(scratch, a.digit, size, powbase, power, buf, buf.Length, base, upper, bits, size, total);
    while dsize != 0
      modifies buf, scratch
      invariant dsize <= size && 5 <= p <= buf.Length && (dsize > 0 ==> scratch[dsize - 1] != 0)
      invariant Written(buf[p..], upper, base, Val(scratch[..dsize]), total)
      decreases Val(scratch[..dsize])
    {
      TopPositive(scratch[..dsize]);
      p, dsize := DivideTurn(scratch, scratch, dsize, powbase, power, buf, p, base, upper, bits, size, total);
    }
    assert scratch[..0] == [];
  }

  lemma TopPositive(s: seq<digit>)
    requires s != [] && s[|s| - 1] != 0
    ensures Val(s) > 0
  {
    ValTop(s);
    PowPos(|s| - 1);
  }

  /** One turn of the repeated division: divide and emit the remainder. */
  method DivideTurn(scratch: array<digit>, pin: array<digit>, dsize: nat, powbase: digit, power: nat,
                    buf: array<char>, p0: nat, base: int, upper: bool,
                    ghost bits: nat, ghost size: nat, ghost total: int) returns (p: nat, dsize': nat)
    requires 0 < dsize <= scratch.Length && dsize <= pin.Length && pin[dsize - 1] != 0
    requires 2 <= base <= 36 && power >= 1 && powbase > 0 && powbase == IntPow(base, power)
    requires p0 <= buf.Length && HasRoom(buf, base, bits, size) && total < Pow(size)
    requires Written(buf[p0..], upper, base, Val(pin[..dsize]), total)
    modifies scratch, buf
    ensures dsize' <= dsize && (dsize' > 0 ==> scratch[dsize' - 1] != 0)
    ensures Val(scratch[..dsize']) < old(Val(pin[..dsize]))
    ensures 5 <= p <= buf.Length && Written(buf[p..], upper, base, Val(scratch[..dsize']), total)
  {
    TopPositive(pin[..dsize]);
    ghost var V := Val(pin[..dsize]);
    var rem;
    rem, dsize' := DivideOnce(scratch, pin, dsize, powbase);
    ghost var Q := Val(scratch[..dsize']);
    ValBound(scratch[..dsize']);
    if dsize' > 0 { TopPositive(scratch[..dsize']); }
    PowerAtLeastTwo(base, power);
    Shrinks(V, Q, powbase, rem);
    assert Left(Q, base, power, rem) == V;
    p := EmitChunk(buf, p0, base, rem, power, dsize', upper, bits, size, Q, total);
  }

  lemma Shrinks(V: int, Q: int, P: int, rem: int)
    requires V == Q * P + rem && P >= 2 && Q >= 0 && rem >= 0 && V > 0
    ensures Q < V && (Q > 0 || rem > 0)
  {
    MulMono(2, P, Q);
    if Q == 0 { assert Q * P == 0; }
  }

  lemma PowerAtLeastTwo(base: int, n: nat)
    requires base >= 2 && n >= 1
    ensures IntPow(base, n) >= 2
  {
    PowerPositive(base, n - 1);
    MulMono(1, IntPow(base, n - 1), base);
  }

  // ----- long_format -----

  /** A finished digit string is the canonical numeral. */
  lemma FinishedNumeral(text: string, upper: bool, base: int, total: int)
    requires Written(text, upper, base, 0, total)
    ensures IsNumeral(text, base, total) && Cased(text, upper)
  {
    assert 0 * IntPow(base, |text|) == 0;
  }

  /** The digit part of long_format, by kind of base. */
  method FormatDigits(a: Long, base: int, upper: bool, buf: array<char>, ghost bits: nat) returns (p: nat)
    requires a.Norm() && 2 <= base <= 36 && HasRoom(buf, base, bits, Abs(a.dsize))
    modifies buf
    ensures 4 <= p <= buf.Length && IsNumeral(buf[p..], base, a.AbsVal()) && Cased(buf[p..], upper)
  {
    NormBounds(a);
    Pow2Mono(6, 32);
    assert Pow2(6) == 64;
    PowerTest(base, 32);
    if a.dsize == 0 {
      RoomAtLeastFive(buf.Length, 0, bits);
      p := Put(buf, buf.Length, '0');
      ZeroNumeral(base);
      assert buf[p..] == "0";
    } else if Bitwise(And, base, base - 1, 32) == 0 {
      p := FormatBinary(a, base, upper, buf, bits);
      FinishedNumeral(buf[p..], upper, base, a.AbsVal());
    } else {
      p := FormatDivide(a, base, upper, buf, bits);
      FinishedNumeral(buf[p..], upper, base, a.AbsVal());
    }
  }

  lemma ZeroNumeral(base: int)
    requires base >= 2
    ensures IsNumeral("0", base, 0)
  {
    assert "0"[..0] == "";
    assert StrVal("", base) == 0;
  }

  lemma RoomAtLeastFive(length: int, size: nat, bits: nat)
    requires bits >= 1 && length == 5 + (size * 15 + bits - 1) / bits
    ensures length >= 5
  {
  }

  /** long_format: the canonical text of any integer in any base from 2 to 36. */
  method LongFormat(a: Long, base: int, upper: bool) returns (text: string)
    requires a.Norm() && 2 <= base <= 36
    ensures IsText(text, base, a.Value()) && Cased(text, upper)
  {
    var bits := FloorLog2(base);
    var length := 5 + (Abs(a.dsize) * 15 + bits - 1) / bits;
    var buf := new char[length];
    var p := FormatDigits(a, base, upper, buf, bits);
    ghost var numeral := buf[p..];
    SignOf(a);
    if a.dsize < 0 {
      p := Put(buf, p, '-');
      assert buf[p..][1..] == numeral;
    }
    text := buf[p..];
  }
}
