/** Shifts by an arbitrary-precision count: floor division and multiplication by
    a power of two. */
module LongShift {
  import opened Digits
  import opened LongCore
  import opened LongSum
  import opened LongDiv
  import opened LongMul
  import opened LongBits

  type u64 = x: int | 0 <= x < 0x1_0000_0000_0000_0000

  /** longp2int64: accumulate in an unsigned 64-bit word, watching for lost bits.
      Fails exactly when the number is not a signed 64-bit value. */
  method LongToInt64(v: Long) returns (ok: bool, r: int)
    requires v.Norm()
    ensures ok <==> -0x8000_0000_0000_0000 <= v.Value() < 0x8000_0000_0000_0000
    ensures ok ==> r == v.Value()
    ensures !ok ==> r == -1
  {
    var i: int := Abs(v.dsize);
    ghost var s := v.Mag();
    var x: u64 := 0;
    assert s[i..] == [];
    while i > 0
      invariant 0 <= i <= |s| == Abs(v.dsize) && s == v.Mag()
      invariant x == Val(s[i..])
    {
      var prev := x;
      i := i - 1;
      assert s[i..] == [s[i]] + s[i + 1..];
      ValCons(s[i], s[i + 1..]);
      x := Wrap64(prev as int * 32768 + v.digit[i]);
      LostBits(prev, v.digit[i]);
      if x / 32768 != prev {
        LargeTail(s, i);
        SignOf(v);
        return false, -1;
      }
    }
    assert s[0..] == s;
    SignOf(v);
    if x >= 0x8000_0000_0000_0000 && (v.dsize >= 0 || x != 0x8000_0000_0000_0000) {
      return false, -1;
    }
    ok, r := true, if v.dsize < 0 then -(x as int) else x;
  }

  function Wrap64(x: int): u64 { x % 0x1_0000_0000_0000_0000 }

  /** The overflow test of longp2int64 is exact. */
  lemma LostBits(prev: u64, d: digit)
    ensures Wrap64(prev * 32768 + d) / 32768 == prev <==> prev * 32768 + d < 0x1_0000_0000_0000_0000
    ensures prev * 32768 + d < 0x1_0000_0000_0000_0000 ==> Wrap64(prev * 32768 + d) == prev * 32768 + d
  {
  }

  /** High digits that are already too large stay too large. */
  lemma LargeTail(s: seq<digit>, i: nat)
    requires i <= |s|
    ensures Val(s) >= Val(s[i..])
  {
    ValSplit(s, i);
    ValBound(s[..i]);
    ValBound(s[i..]);
    ScaleMul(Val(s[i..]), i);
    PowPos(i);
    MulMono(1, Pow(i), Val(s[i..]));
  }

  // ----- masks -----

  lemma ModTwice(x: int, p: int)
    requires p > 0
    ensures x % (2 * p) == x % 2 + 2 * (x / 2 % p)
  {
    var h := x / 2;
    QuotientIs(x, 2 * p, h / p, x % 2 + 2 * (h % p));
  }

  lemma AndOdd(x: nat, m: nat, n: nat)
    ensures Bitwise(And, x, 2 * m + 1, n + 1) == x % 2 + 2 * Bitwise(And, x / 2, m, n)
  {
    assert (2 * m + 1) / 2 == m && (2 * m + 1) % 2 == 1;
  }

  lemma AndDouble(x: nat, y: nat, n: nat)
    ensures Bitwise(And, 2 * x, 2 * y, n + 1) == 2 * Bitwise(And, x, y, n)
  {
    assert 2 * x / 2 == x && 2 * y / 2 == y && 2 * x % 2 == 0;
  }

  lemma {:induction false} AndNothing(x: nat, n: nat)
    ensures Bitwise(And, x, 0, n) == 0
    decreases n
  {
    if n > 0 {
      AndNothing(x / 2, n - 1);
    }
  }

  /** And with a low mask is the remainder by a power of two. */
  lemma AndLow(x: nat, k: nat, n: nat)
    requires k <= n
    ensures Bitwise(And, x, Pow2(k) - 1, n) == x % Pow2(k)
  {
    AndBelow(x, k, Pow2(k), n);
  }

  lemma {:induction false} AndBelow(x: nat, k: nat, p: nat, n: nat)
    requires k <= n && p == Pow2(k)
    ensures Bitwise(And, x, p - 1, n) == x % p
    decreases n
  {
    if k == 0 {
      AndNothing(x, n);
    } else {
      AndBelow(x / 2, k - 1, Pow2(k - 1), n - 1);
      AndLowStep(x, Pow2(k - 1), n);
    }
  }

  lemma AndLowStep(x: nat, p: nat, n: nat)
    requires n > 0 && p > 0 && Bitwise(And, x / 2, p - 1, n - 1) == x / 2 % p
    ensures Bitwise(And, x, 2 * p - 1, n) == x % (2 * p)
  {
    AndOdd(x, p - 1, n - 1);
    ModTwice(x, p);
  }

  /** All ones xor a low mask is the high mask. */
  lemma {:induction false} XorLow(k: nat, n: nat)
    requires k <= n
    ensures Bitwise(Xor, Pow2(n) - 1, Pow2(k) - 1, n) == Pow2(n) - Pow2(k)
    decreases n
  {
    if n > 0 {
      Ones(n);
      if k == 0 {
        XorLow(0, n - 1);
      } else {
        Ones(k);
        XorLow(k - 1, n - 1);
      }
    }
  }

  lemma Ones(n: nat)
    requires n > 0
    ensures (Pow2(n) - 1) / 2 == Pow2(n - 1) - 1 && (Pow2(n) - 1) % 2 == 1 && Pow2(n) == 2 * Pow2(n - 1)
  {
    OddHalf(Pow2(n - 1));
  }

  lemma OddHalf(p: nat)
    requires p > 0
    ensures (2 * p - 1) / 2 == p - 1 && (2 * p - 1) % 2 == 1
  {
  }

  /** And commutes with shifting both sides up. */
  lemma {:induction false} AndShifted(d: nat, m: nat, h: nat, n: nat)
    ensures Bitwise(And, d * Pow2(h), m * Pow2(h), n + h) == Bitwise(And, d, m, n) * Pow2(h)
    decreases h
  {
    if h > 0 {
      var p := Pow2(h - 1);
      TimesTwice(d, p);
      TimesTwice(m, p);
      AndDouble(d * p, m * p, n + h - 1);
      AndShifted(d, m, h - 1, n);
      TimesTwice(Bitwise(And, d, m, n), p);
    }
  }

  lemma TimesTwice(x: nat, p: nat)
    ensures x * (2 * p) == 2 * (x * p) && x * p >= 0
  {
  }

  /** Or of disjoint bit ranges is addition. */
  lemma {:induction false} OrDisjoint(x: nat, y: nat, h: nat, n: nat)
    requires y < Pow2(h) && h <= n && x < Pow2(n - h)
    ensures Bitwise(Or, y, x * Pow2(h), n) == y + x * Pow2(h)
    decreases n
  {
    if h == 0 {
      OrZero(x, n);
    } else {
      var p := Pow2(h - 1);
      assert x * Pow2(h) == 2 * (x * p);
      OrDisjoint(x, y / 2, h - 1, n - 1);
    }
  }

  lemma {:induction false} OrZero(x: nat, n: nat)
    requires x < Pow2(n)
    ensures Bitwise(Or, 0, x, n) == x
  {
    if n > 0 {
      OrZero(x / 2, n - 1);
    }
  }

  // ----- long_rshift -----

  lemma HighPart(d: digit, lo: nat)
    requires lo < 15
    ensures d / Pow2(lo) < Pow2(15 - lo)
  {
    Pow2Fifteen();
    Pow2Add(lo, 15 - lo);
    SmallQuotient(d, Pow2(lo), Pow2(15 - lo));
  }

  lemma SmallQuotient(d: int, p: int, q: int)
    requires 0 <= d < p * q && p > 0
    ensures 0 <= d / p < q
  {
    if d / p >= q {
      MulMono(q, d / p, p);
    }
  }

  /** The first half of a result digit, with the C mask. */
  function ShiftLow(d: digit, lo: nat): (r: digit)
    requires lo < 15
    ensures r == d / Pow2(lo) && r < Pow2(15 - lo)
  {
    LowMasked(d, lo);
    Bitwise(And, d / Pow2(lo), Pow2(15 - lo) - 1, 15)
  }

  lemma LowMasked(d: digit, lo: nat)
    requires lo < 15
    ensures 0 <= d / Pow2(lo) < Pow2(15 - lo) <= 32768
    ensures Bitwise(And, d / Pow2(lo), Pow2(15 - lo) - 1, 15) == d / Pow2(lo)
  {
    var x := d / Pow2(lo);
    HighPart(d, lo);
    AndLow(x, 15 - lo, 15);
    SmallMod(x, Pow2(15 - lo));
    Pow2Fifteen();
    Pow2Add(lo, 15 - lo);
    MulMono(1, Pow2(lo), Pow2(15 - lo));
  }

  lemma SmallMod(x: nat, p: nat)
    requires x < p
    ensures x % p == x
  {
  }

  /** The next digit shifted up and masked: its low bits, moved up. */
  lemma HighMasked(e: digit, lo: nat)
    requires lo < 15
    ensures Bitwise(Xor, 32767, Pow2(15 - lo) - 1, 15) == (Pow2(lo) - 1) * Pow2(15 - lo)
    ensures Bitwise(And, e * Pow2(15 - lo), (Pow2(lo) - 1) * Pow2(15 - lo), 15 + (15 - lo)) == e % Pow2(lo) * Pow2(15 - lo)
  {
    Pow2Fifteen();
    XorLow(15 - lo, 15);
    Pow2Add(lo, 15 - lo);
    MinusOne(Pow2(lo), Pow2(15 - lo));
    AndShifted(e, Pow2(lo) - 1, 15 - lo, 15);
    AndLow(e, lo, 15);
  }

  lemma MinusOne(p: int, q: int)
    ensures (p - 1) * q == p * q - q
  {
  }

  lemma OrLow(low: digit, e: digit, lo: nat, hi: nat)
    requires lo + hi == 15 && low < Pow2(hi)
    ensures Bitwise(Or, low, e % Pow2(lo) * Pow2(hi), 15) == low + e % Pow2(lo) * Pow2(hi)
  {
    assert 15 - hi == lo;
    OrDisjoint(e % Pow2(lo), low, hi, 15);
  }

  /** The second half of a result digit: the next digit's low bits moved up. */
  function ShiftHigh(low: digit, e: digit, lo: nat): (r: digit)
    requires lo < 15 && low < Pow2(15 - lo)
    ensures r == low + e % Pow2(lo) * Pow2(15 - lo)
  {
    HighPlaced(low, e, lo);
    var himask := Bitwise(Xor, 32767, Pow2(15 - lo) - 1, 15);
    Bitwise(Or, low, Bitwise(And, e * Pow2(15 - lo), himask, 15 + (15 - lo)), 15)
  }

  lemma HighPlaced(low: digit, e: digit, lo: nat)
    requires lo < 15 && low < Pow2(15 - lo)
    ensures 0 < Pow2(15 - lo) <= 32768 && Bitwise(Xor, 32767, Pow2(15 - lo) - 1, 15) >= 0 && 0 <= e * Pow2(15 - lo)
    ensures var himask := Bitwise(Xor, 32767, Pow2(15 - lo) - 1, 15);
            Bitwise(Or, low, Bitwise(And, e * Pow2(15 - lo), himask, 15 + (15 - lo)), 15) == low + e % Pow2(lo) * Pow2(15 - lo) < 32768
  {
    var p, q := Pow2(lo), Pow2(15 - lo);
    HighMasked(e, lo);
    OrLow(low, e, lo, 15 - lo);
    Pow2Fifteen();
    Pow2Add(lo, 15 - lo);
    HighRoom(e % p, p, q, low);
    NonNegative(e, q);
    assert 0 < q <= 32768 by { HighRoom(0, p, q, 0); }
  }

  lemma HighRoom(x: int, p: int, q: int, low: int)
    requires 0 <= x < p && 0 <= low < q && p * q == 32768
    ensures 0 < q <= 32768 && low + x * q < 32768
  {
    MulMono(x, p - 1, q);
    MulMono(1, p, q);
    MinusOne(p, q);
  }

  lemma NonNegative(x: nat, y: nat)
    ensures 0 <= x * y
  {
  }

  /** The state of the digit loop, as if the shifted digits were multiplied back. */
  ghost predicate Shifting(z: seq<digit>, a: seq<digit>, i: nat, lo: nat) {
    && lo < 15 && i <= |z| && i <= |a|
    && Val(z[..i]) * Pow2(lo) + LowBits(a, 0, lo) == Val(a[..i]) + Scale(LowBits(a, i, lo), i)
  }

  function LowBits(a: seq<digit>, i: nat, lo: nat): nat {
    if i < |a| then a[i] % Pow2(lo) else 0
  }

  /** The digit identity of one step, multiplied back by P = 2^lo. */
  lemma SpliceTimes(a: int, q: int, r: int, r': int, P: int, Q: int)
    requires a == q * P + r && Q * P == 32768
    ensures (q + r' * Q) * P == a - r + 32768 * r'
  {
    assert (r' * Q) * P == r' * (Q * P);
  }

  lemma ShiftingStep(z: seq<digit>, a: seq<digit>, i: nat, lo: nat, d: digit)
    requires i < |z| && i < |a| && Shifting(z, a, i, lo)
    requires d == a[i] / Pow2(lo) + LowBits(a, i + 1, lo) * Pow2(15 - lo)
    ensures Shifting(z[i := d], a, i + 1, lo)
  {
    var P, r, r' := Pow2(lo), LowBits(a, i, lo), LowBits(a, i + 1, lo);
    assert z[i := d][..i + 1] == z[..i] + [d];
    ValSnoc(z[..i], d);
    ValPrefix(a, i);
    SplicedDigit(a[i], r', lo, d);
    SpliceColumn(i, a[i], r, r', d, P);
    Distribute(Val(z[..i]), Scale(d, i), P);
  }

  lemma SplicedDigit(a: nat, r': nat, lo: nat, d: int)
    requires lo < 15 && d == a / Pow2(lo) + r' * Pow2(15 - lo)
    ensures d * Pow2(lo) == a - a % Pow2(lo) + 32768 * r'
  {
    var P, Q := Pow2(lo), Pow2(15 - lo);
    Pow2Fifteen();
    Pow2Add(15 - lo, lo);
    Divided(a, P);
    SpliceTimes(a, a / P, a % P, r', P, Q);
  }

  lemma Divided(a: int, p: int)
    requires p > 0
    ensures a == a / p * p + a % p
  {
  }

  lemma SpliceColumn(i: nat, a: int, r: int, r': int, d: int, P: int)
    requires d * P == a - r + 32768 * r'
    ensures Scale(d, i) * P + Scale(r, i) == Scale(a, i) + Scale(r', i + 1)
  {
    ScaleTimes(d, P, i);
    Carry(i, a - r, r', d * P);
    ScaleAdd(a - r, r, i);
  }

  lemma Distribute(x: int, y: int, p: int)
    ensures (x + y) * p == x * p + y * p
  {
  }

  /** The digit loop of long_rshift over the digits a. */
  method ShiftDigits(z: array<digit>, a: array<digit>, from: nat, n: nat, lo: nat)
    requires n == z.Length && from + n <= a.Length && z != a && lo < 15 && n > 0
    modifies z
    ensures Val(a[from..from + n]) == Val(z[..]) * Pow2(lo) + a[from] % Pow2(lo)
  {
    ghost var s := a[from..from + n];
    ScaleZero(0);
    for i := 0 to n
      invariant Shifting(z[..], s, i, lo)
    {
      ghost var now := z[..];
      var d := ShiftLow(a[from + i], lo);
      if i + 1 < n {
        d := ShiftHigh(d, a[from + i + 1], lo);
      }
      assert d == s[i] / Pow2(lo) + LowBits(s, i + 1, lo) * Pow2(15 - lo);
      ShiftingStep(now, s, i, lo, d);
      z[i] := d;
      assert z[..] == now[i := d];
    }
    ScaleZero(n);
    assert s[..n] == s && z[..][..n] == z[..];
  }

  /** The shifted digits are the floor of the whole number by 2^(15 * w + lo). */
  lemma ShiftIsFloor(a: seq<digit>, w: nat, lo: nat, z: int, r: int)
    requires w <= |a| && lo < 15 && Val(a[w..]) == z * Pow2(lo) + r && 0 <= r < Pow2(lo)
    ensures Val(a) / Pow2(15 * w + lo) == z
  {
    ValSplit(a, w);
    ValBound(a[..w]);
    ScaleMul(Val(a[w..]), w);
    PowIsPow2(w);
    Pow2Add(15 * w, lo);
    FloorOfFloor(Val(a), Pow2(15 * w), Pow2(lo), Val(a[..w]), z, r);
  }

  lemma FloorOfFloor(a: int, P: int, L: int, low: int, z: int, r: int)
    requires P > 0 && L > 0 && 0 <= low < P && 0 <= r < L && a == low + (z * L + r) * P
    ensures P * L > 0 && a / (P * L) == z
  {
    MulMono(r + 1, L, P);
    MulMono(0, r, P);
    assert (z * L + r) * P == z * (P * L) + r * P;
    assert (r + 1) * P == r * P + P;
    assert L * P == P * L;
    QuotientIs(a, P * L, z, r * P + low);
  }

  /** Shifting out everything leaves nothing. */
  lemma ShiftedOut(a: seq<digit>, w: nat, lo: nat)
    requires |a| <= w
    ensures Val(a) / Pow2(15 * w + lo) == 0
  {
    ValBound(a);
    PowMono(|a|, w);
    PowIsPow2(w);
    Pow2Add(15 * w, lo);
    MulMono(1, Pow2(lo), Pow2(15 * w));
    QuotientIs(Val(a), Pow2(15 * w + lo), 0, Val(a));
  }

  /** long_rshift of a non-negative number by a checked count. */
  method ShiftRightPlain(a: Long, n: nat) returns (z: Long)
    requires a.Norm() && a.dsize >= 0
    ensures z.Norm() && z.Value() == a.Value() / Pow2(n)
  {
    var wordshift := n / 15;
    var newsize := a.dsize - wordshift;
    if newsize <= 0 {
      z := new Long(0);
      ShiftedOut(a.Mag(), wordshift, n % 15);
      return;
    }
    z := new Long(newsize);
    ShiftDigits(z.digit, a.digit, wordshift, newsize, n % 15);
    assert a.Mag()[wordshift..] == a.digit[wordshift..wordshift + newsize];
    ShiftIsFloor(a.Mag(), wordshift, n % 15, Val(z.digit[..]), a.digit[wordshift] % Pow2(n % 15));
    assert z.Mag() == z.digit[..];
    z.Normalize();
  }

  /** Shifting a complement is the complement of the shift. */
  lemma ComplementShift(a: int, n: nat)
    ensures -((-a - 1) / Pow2(n)) - 1 == a / Pow2(n)
  {
    var p := Pow2(n);
    var x := -a - 1;
    assert x == x / p * p + x % p;
    assert (-(x / p) - 1) * p == -(x / p * p) - p;
    QuotientIs(a, p, -(x / p) - 1, p - 1 - x % p);
  }

  /** long_rshift: floor division by 2^w, for both signs. Fails exactly when the
      count is negative or not a signed 64-bit value. */
  method LongRShift(a: Long, w: Long) returns (ok: bool, z: Long?)
    requires a.Norm() && w.Norm()
    ensures ok <==> 0 <= w.Value() < 0x8000_0000_0000_0000
    ensures ok ==> z != null && z.Norm() && z.Value() == a.Value() / Pow2(w.Value())
  {
    var fits, shiftby := LongToInt64(w);
    if shiftby < 0 {
      return false, null;
    }
    ok := true;
    if a.dsize < 0 {
      var a1 := LongInvert(a);
      SignOf(a1);
      SignOf(a);
      z := ShiftRightPlain(a1, shiftby);
      z := LongInvert(z);
      ComplementShift(a.Value(), shiftby);
    } else {
      z := ShiftRightPlain(a, shiftby);
    }
  }

  // ----- long_lshift -----

  /** State of the accumulating loop: i digits of a multiplied by L, the excess in
      the accumulator. */
  ghost predicate Lifting(z: seq<digit>, a: seq<digit>, i: nat, L: nat, accum: int) {
    i <= |z| && i <= |a| && Val(z[..i]) + Scale(accum, i) == Val(a[..i]) * L
  }

  lemma LiftingStep(z: seq<digit>, a: seq<digit>, i: nat, L: nat, accum: int, d: digit, accum': int)
    requires i < |z| && i < |a| && Lifting(z, a, i, L, accum)
    requires d + 32768 * accum' == accum + a[i] * L
    ensures Lifting(z[i := d], a, i + 1, L, accum')
  {
    assert z[i := d][..i + 1] == z[..i] + [d];
    ValSnoc(z[..i], d);
    ValPrefix(a, i);
    Carry(i, d, accum', accum + a[i] * L);
    ScaleAdd(accum, a[i] * L, i);
    ScaleTimes(a[i], L, i);
    Distribute(Val(a[..i]), Scale(a[i], i), L);
  }

  /** One turn of the accumulator: or in the digit, emit the low 15 bits. */
  method Accumulate(accum: u32, d: digit, rem: nat) returns (out: digit, accum': u32)
    requires rem < 15 && accum < Pow2(rem)
    ensures out + 32768 * accum' == accum + d * Pow2(rem) && accum' < Pow2(rem)
  {
    Pow2Fifteen();
    Pow2Add(rem, 15);
    OrDisjoint(d, accum, rem, rem + 15);
    var word: u32 := Bitwise(Or, accum, Word(d, rem), rem + 15);
    out := word % 32768;
    accum' := word / 32768;
  }

  /** A digit shifted up by less than 15 bits fits two digits. */
  function Word(d: digit, rem: nat): (w: u32)
    requires rem < 15
    ensures w == d * Pow2(rem) < 0x4000_0000
  {
    Pow2Fifteen();
    Pow2Add(rem, 15 - rem);
    Pow2Mono(rem, 15);
    MulRange2(d, Pow2(rem));
    d * Pow2(rem)
  }

  lemma {:induction false} Pow2Mono(m: nat, n: nat)
    requires m <= n
    ensures Pow2(m) <= Pow2(n)
  {
    if m < n {
      Pow2Mono(m, n - 1);
    }
  }

  lemma MulRange2(a: nat, b: nat)
    requires a < 32768 && b <= 32768
    ensures a * b < 0x4000_0000
  {
    MulMono(a, 32767, b);
  }

  /** The digit loop of long_lshift. */
  method LiftDigits(z: array<digit>, at: nat, a: array<digit>, n: nat, rem: nat) returns (accum: u32)
    requires at + n <= z.Length && n <= a.Length && z != a && rem < 15
    modifies z
    ensures z[..at] == old(z[..at]) && z[at + n..] == old(z[at + n..]) && accum < Pow2(rem)
    ensures Val(z[at..at + n]) + Scale(accum, n) == Val(a[..n]) * Pow2(rem)
  {
    ghost var s, low, high := a[..n], z[..at], z[at + n..];
    accum := 0;
    ScaleZero(0);
    for j := 0 to n
      invariant accum < Pow2(rem) && z[..at] == low && z[at + n..] == high
      invariant Lifting(z[at..at + n], s, j, Pow2(rem), accum)
    {
      ghost var now, c := z[at..at + n], accum;
      var d;
      d, accum := Accumulate(accum, a[j], rem);
      LiftingStep(now, s, j, Pow2(rem), c, d, accum);
      z[at + j] := d;
      assert z[at..at + n] == now[j := d];
    }
    assert s[..n] == s && z[at..at + n][..n] == z[at..at + n];
  }

  /** long_lshift: multiplication by 2^w, for both signs. Fails exactly when the
      count is negative or does not fit 32 signed bits. */
  method LongLShift(a: Long, w: Long) returns (ok: bool, z: Long?)
    requires a.Norm() && w.Norm()
    ensures ok <==> 0 <= w.Value() < 0x8000_0000
    ensures ok ==> z != null && z.Norm() && z.Value() == a.Value() * Pow2(w.Value())
  {
    var fits, shiftby := LongToInt64(w);
    if shiftby < 0 || shiftby >= 0x8000_0000 {
      return false, null;
    }
    ok := true;
    z := ShiftLeft(a, shiftby);
  }

  method ShiftLeft(a: Long, n: nat) returns (z: Long)
    requires a.Norm()
    ensures z.Norm() && z.Value() == a.Value() * Pow2(n)
  {
    var wordshift, remshift := n / 15, n % 15;
    var oldsize := Abs(a.dsize);
    var newsize := oldsize + wordshift;
    if remshift != 0 {
      newsize := newsize + 1;
    }
    z := new Long(newsize);
    if a.dsize < 0 {
      z.dsize := -z.dsize;
    }
    LiftInto(z.digit, wordshift, a.digit, oldsize, remshift);
    assert a.digit[..oldsize] == a.Mag() && z.digit[..] == z.Mag();
    NegativeTimes(a.AbsVal(), Pow2(n));
    z.Normalize();
  }

  lemma NegativeTimes(x: int, p: int)
    ensures (-x) * p == -(x * p)
  {
  }

  /** The whole buffer of long_lshift: zeros, shifted digits, last carry. */
  method LiftInto(z: array<digit>, w: nat, a: array<digit>, n: nat, rem: nat)
    requires n <= a.Length && z != a && rem < 15
    requires z.Length == n + w + if rem != 0 then 1 else 0
    modifies z
    ensures Val(z[..]) == Val(a[..n]) * Pow2(15 * w + rem)
  {
    ghost var X := Val(a[..n]);
    for i := 0 to w
      invariant forall m :: 0 <= m < i ==> z[m] == 0
    {
      z[i] := 0;
    }
    var accum := LiftDigits(z, w, a, n, rem);
    ghost var low, mid := z[..w], z[w..w + n];
    if rem != 0 {
      Pow2Mono(rem, 14);
      Pow2Fifteen();
      z[n + w] := accum;
    } else {
      assert accum == 0;
      ScaleZero(n);
    }
    LiftedValue(z[..], low, mid, w, n, rem, accum, X);
  }

  lemma TopCarry(high: seq<digit>, n: nat, accum: int)
    requires |high| == n || |high| == n + 1
    requires if |high| > n then high[n] == accum else accum == 0
    ensures Val(high) == Val(high[..n]) + Scale(accum, n)
  {
    if |high| > n {
      ValPrefix(high, n);
      assert high[..n + 1] == high;
    } else {
      assert high[..n] == high;
      ScaleZero(n);
    }
  }

  lemma TimesPow2(x: int, w: nat, rem: nat)
    ensures Scale(x * Pow2(rem), w) == x * Pow2(15 * w + rem)
  {
    ScaleMul(x * Pow2(rem), w);
    PowIsPow2(w);
    Pow2Add(15 * w, rem);
    Reorder(x, Pow2(rem), Pow2(15 * w));
  }

  lemma Reorder(x: int, p: int, q: int)
    ensures (x * p) * q == x * (q * p)
  {
  }

  lemma LiftedValue(z: seq<digit>, low: seq<digit>, mid: seq<digit>, w: nat, n: nat, rem: nat, accum: int, X: int)
    requires |z| == n + w + (if rem != 0 then 1 else 0) && z[..w] == low && z[w..w + n] == mid
    requires forall m :: 0 <= m < w ==> low[m] == 0
    requires if rem != 0 then z[n + w] == accum else accum == 0
    requires Val(mid) + Scale(accum, n) == X * Pow2(rem)
    ensures Val(z) == X * Pow2(15 * w + rem)
  {
    ValZeros(low);
    ValSplit(z, w);
    assert z[w..][..n] == mid;
    TopCarry(z[w..], n, accum);
    TimesPow2(X, w, rem);
  }
}
