/** Shifts and bitwise operations, against infinite two's complement. */
module LongBits {
  import opened Digits
  import opened LongCore
  import opened LongSum
  import opened LongDiv
  import opened LongMul

  /** Bit i of x in infinite two's complement: halving rounds down. */
  function Bit(x: int, i: nat): (b: int)
    ensures b == 0 || b == 1
    decreases i
  {
    if i == 0 then x % 2 else Bit(x / 2, i - 1)
  }

  lemma {:induction false} BitIsShift(x: int, i: nat)
    ensures Bit(x, i) == x / Pow2(i) % 2
    decreases i
  {
    if i > 0 {
      BitIsShift(x / 2, i - 1);
      DivTwice(x, Pow2(i - 1));
    }
  }

  datatype Op = And | Or | Xor

  function BitOf(op: Op, x: int, y: int): int {
    match op
    case And => if x == 1 && y == 1 then 1 else 0
    case Or => if x == 1 || y == 1 then 1 else 0
    case Xor => if x == y then 0 else 1
  }

  /** The machine's operation on n-bit words. */
  function Bitwise(op: Op, x: nat, y: nat, n: nat): (r: nat)
    ensures r < Pow2(n)
  {
    if n == 0 then 0 else BitOf(op, x % 2, y % 2) + 2 * Bitwise(op, x / 2, y / 2, n - 1)
  }

  lemma DivTwice(x: int, p: int)
    requires p > 0
    ensures x / (2 * p) == x / 2 / p
  {
    var q := x / 2 / p;
    var r := x / 2 - q * p;
    assert x / 2 == q * p + r && 0 <= r < p;
    QuotientIs(x, 2 * p, q, 2 * r + x % 2);
  }

  lemma QuotientIs(x: int, m: int, q: int, r: int)
    requires m > 0 && x == q * m + r && 0 <= r < m
    ensures x / m == q && x % m == r
  {
    var d := x / m - q;
    assert x == x / m * m + x % m;
    assert d * m == x / m * m - q * m;
    MulAway(d, m);
  }

  /** Complement flips every bit. */
  lemma {:induction false} BitInvert(x: int, i: nat)
    ensures Bit(-x - 1, i) == 1 - Bit(x, i)
    decreases i
  {
    if i > 0 {
      assert (-x - 1) / 2 == -(x / 2) - 1;
      BitInvert(x / 2, i - 1);
    }
  }

  lemma {:induction false} BitwiseBits(op: Op, x: nat, y: nat, n: nat, i: nat)
    requires i < n
    ensures Bit(Bitwise(op, x, y, n), i) == BitOf(op, Bit(x, i), Bit(y, i))
    decreases i
  {
    if i > 0 {
      BitwiseBits(op, x / 2, y / 2, n - 1, i - 1);
    }
  }

  /** Two integers with the same bits are the same integer. */
  lemma {:induction false} SameBits(x: int, y: int)
    requires forall i: nat :: Bit(x, i) == Bit(y, i)
    ensures x == y
    decreases Abs(x) + Abs(y)
  {
    assert Bit(x, 0) == Bit(y, 0);
    if (x == 0 || x == -1) && (y == 0 || y == -1) {
    } else {
      forall i: nat
        ensures Bit(x / 2, i) == Bit(y / 2, i)
      {
        assert Bit(x, i + 1) == Bit(y, i + 1);
      }
      SameBits(x / 2, y / 2);
    }
  }

  /** The high bits of x, from position n on. */
  lemma {:induction false} BitHigh(x: int, n: nat, i: nat)
    ensures Bit(x, n + i) == Bit(x / Pow2(n), i)
    decreases n
  {
    if n > 0 {
      DivTwice(x, Pow2(n - 1));
      BitHigh(x / 2, n - 1, i);
    }
  }

  /** The low bits ignore multiples of 2^n. */
  lemma {:induction false} BitLow(d: int, h: int, n: nat, i: nat)
    requires i < n
    ensures Bit(d + Pow2(n) * h, i) == Bit(d, i)
    decreases i
  {
    var p := Pow2(n - 1) * h;
    assert d + Pow2(n) * h == d + 2 * p;
    if i > 0 {
      assert (d + 2 * p) / 2 == d / 2 + p;
      BitLow(d / 2, h, n - 1, i - 1);
    }
  }

  /** Bit 15 * k + j of a number is bit j of its digit k. */
  lemma {:induction false} BitOfDigit(s: seq<digit>, k: nat, j: nat)
    requires j < 15
    ensures Bit(Val(s), 15 * k + j) == Bit(if k < |s| then s[k] else 0, j)
    decreases k
  {
    Pow2Fifteen();
    if s == [] {
      BitOfZero(15 * k + j);
      BitOfZero(j);
    } else {
      var t := s[1..];
      assert s == [s[0]] + t;
      ValCons(s[0], t);
      if k == 0 {
        BitLow(s[0], Val(t), 15, j);
      } else {
        BitHigh(Val(s), 15, 15 * (k - 1) + j);
        QuotientIs(Val(s), 32768, Val(t), s[0]);
        BitOfDigit(t, k - 1, j);
      }
    }
  }

  lemma {:induction false} BitOfZero(i: nat)
    ensures Bit(0, i) == 0
  {
    if i > 0 {
      BitOfZero(i - 1);
    }
  }

  // ----- long_bitwise -----

  function DigitOp(op: Op, x: digit, y: digit): digit {
    Pow2Fifteen();
    Bitwise(op, x, y, 15)
  }

  function MaskOf(negative: bool): digit {
    if negative then 32767 else 0
  }

  lemma {:induction false} BitOfMask(negative: bool, j: nat, n: nat)
    requires j < n <= 15
    ensures Bit(if negative then Pow2(n) - 1 else 0, j) == if negative then 1 else 0
    decreases j
  {
    if j > 0 {
      BitOfMask(negative, j - 1, n - 1);
      assert (Pow2(n) - 1) / 2 == Pow2(n - 1) - 1;
    }
  }

  /** The plan the switch of long_bitwise arrives at: which operation on which
      masked digits, and whether to complement the result. */
  datatype Plan = Plan(op: Op, maska: digit, maskb: digit, negz: bool)

  function Rewrite(op: Op, maska: digit, maskb: digit): Plan {
    match op
    case Xor =>
      if maska != maskb then Plan(op, DigitOp(Xor, maska, 32767), maskb, true)
      else Plan(op, maska, maskb, false)
    case And =>
      if maska != 0 && maskb != 0 then Plan(Or, DigitOp(Xor, maska, 32767), DigitOp(Xor, maskb, 32767), true)
      else Plan(op, maska, maskb, false)
    case Or =>
      if maska != 0 || maskb != 0 then Plan(And, DigitOp(Xor, maska, 32767), DigitOp(Xor, maskb, 32767), true)
      else Plan(op, maska, maskb, false)
  }

  lemma {:induction false} XorOnes(f: bool, n: nat)
    ensures Bitwise(Xor, if f then Pow2(n) - 1 else 0, Pow2(n) - 1, n) == if f then 0 else Pow2(n) - 1
  {
    if n > 0 {
      XorOnes(f, n - 1);
    }
  }

  lemma FlipMask(negative: bool)
    ensures DigitOp(Xor, MaskOf(negative), 32767) == MaskOf(!negative)
  {
    Pow2Fifteen();
    XorOnes(negative, 15);
  }

  function Flip(x: int, f: bool): int {
    if f then 1 - x else x
  }

  /** The plan in terms of booleans. */
  lemma PlanMasks(op: Op, na: bool, nb: bool) returns (fa: bool, fb: bool)
    ensures Rewrite(op, MaskOf(na), MaskOf(nb)).maska == MaskOf(fa)
    ensures Rewrite(op, MaskOf(na), MaskOf(nb)).maskb == MaskOf(fb)
    ensures forall x, y :: 0 <= x <= 1 && 0 <= y <= 1 ==>
      var p := Rewrite(op, MaskOf(na), MaskOf(nb));
      Flip(BitOf(p.op, Flip(x, fa), Flip(y, fb)), p.negz) == BitOf(op, Flip(x, na), Flip(y, nb))
    ensures var p := Rewrite(op, MaskOf(na), MaskOf(nb));
      && (p.op == And ==> !fa || !fb) && (p.op == Or ==> !fa && !fb) && (p.op == Xor ==> fa == fb)
  {
    FlipMask(na);
    FlipMask(nb);
    var p := Rewrite(op, MaskOf(na), MaskOf(nb));
    fa, fb := p.maska != 0, p.maskb != 0;
  }

  function DigitOrZero(s: seq<digit>, m: nat): digit {
    if m < |s| then s[m] else 0
  }

  /** Digit m of the result: the planned operation on the two masked digits. */
  function Combined(p: Plan, x: seq<digit>, y: seq<digit>, m: nat): digit {
    DigitOp(p.op, DigitOp(Xor, DigitOrZero(x, m), p.maska), DigitOp(Xor, DigitOrZero(y, m), p.maskb))
  }

  lemma MaskedBit(d: digit, f: bool, j: nat)
    requires j < 15
    ensures Bit(DigitOp(Xor, d, MaskOf(f)), j) == Flip(Bit(d, j), f)
  {
    Pow2Fifteen();
    BitwiseBits(Xor, d, MaskOf(f), 15, j);
    BitOfMask(f, j, 15);
  }

  lemma CombinedBit(p: Plan, fa: bool, fb: bool, x: seq<digit>, y: seq<digit>, m: nat, j: nat)
    requires j < 15 && p.maska == MaskOf(fa) && p.maskb == MaskOf(fb)
    ensures Bit(Combined(p, x, y, m), j) ==
      BitOf(p.op, Flip(Bit(Val(x), 15 * m + j), fa), Flip(Bit(Val(y), 15 * m + j), fb))
  {
    Pow2Fifteen();
    MaskedBit(DigitOrZero(x, m), fa, j);
    MaskedBit(DigitOrZero(y, m), fb, j);
    BitwiseBits(p.op, DigitOp(Xor, DigitOrZero(x, m), p.maska), DigitOp(Xor, DigitOrZero(y, m), p.maskb), 15, j);
    BitOfDigit(x, m, j);
    BitOfDigit(y, m, j);
  }

  /** The size chosen for the result: where an operand's digits are all one (its
      mask is set) or all zero, its length does not matter. */
  function ResultSize(p: Plan, sizeA: nat, sizeB: nat): nat {
    if p.op == And then
      (if p.maska != 0 then sizeB else if p.maskb != 0 then sizeA else Min(sizeA, sizeB))
    else Max(sizeA, sizeB)
  }

  /** Beyond that size the result has no more bits. */
  lemma NothingBeyond(op: Op, fa: bool, fb: bool, sizeA: nat, sizeB: nat, m: nat, u: int, v: int)
    requires (op == And ==> !fa || !fb) && (op == Or ==> !fa && !fb) && (op == Xor ==> fa == fb)
    requires 0 <= u <= 1 && 0 <= v <= 1 && (m >= sizeA ==> u == 0) && (m >= sizeB ==> v == 0)
    requires m >= ResultSize(Plan(op, MaskOf(fa), MaskOf(fb), false), sizeA, sizeB)
    ensures BitOf(op, Flip(u, fa), Flip(v, fb)) == 0
  {
  }

  /** The finished digits of the plan. */
  ghost predicate IsResult(p: Plan, x: seq<digit>, y: seq<digit>, z: seq<digit>) {
    |z| == ResultSize(p, |x|, |y|) && forall m :: 0 <= m < |z| ==> z[m] == Combined(p, x, y, m)
  }

  /** Masks that the switch can produce for an operation. */
  ghost predicate Possible(p: Plan, fa: bool, fb: bool) {
    && p.maska == MaskOf(fa) && p.maskb == MaskOf(fb)
    && (p.op == And ==> !fa || !fb) && (p.op == Or ==> !fa && !fb) && (p.op == Xor ==> fa == fb)
  }

  lemma BitInside(p: Plan, fa: bool, fb: bool, x: seq<digit>, y: seq<digit>, z: seq<digit>, m: nat, j: nat)
    requires Possible(p, fa, fb) && IsResult(p, x, y, z) && m < |z| && j < 15
    ensures Bit(Val(z), 15 * m + j) ==
      BitOf(p.op, Flip(Bit(Val(x), 15 * m + j), fa), Flip(Bit(Val(y), 15 * m + j), fb))
  {
    BitOfDigit(z, m, j);
    CombinedBit(p, fa, fb, x, y, m, j);
  }

  lemma BitBeyond(p: Plan, fa: bool, fb: bool, x: seq<digit>, y: seq<digit>, z: seq<digit>, m: nat, j: nat)
    requires Possible(p, fa, fb) && IsResult(p, x, y, z) && m >= |z| && j < 15
    ensures Bit(Val(z), 15 * m + j) ==
      BitOf(p.op, Flip(Bit(Val(x), 15 * m + j), fa), Flip(Bit(Val(y), 15 * m + j), fb))
  {
    BitOfDigit(x, m, j);
    BitOfDigit(y, m, j);
    BitOfDigit(z, m, j);
    BitOfZero(j);
    var u, v := Bit(Val(x), 15 * m + j), Bit(Val(y), 15 * m + j);
    NothingBeyond(p.op, fa, fb, |x|, |y|, m, u, v);
  }

  /** Every bit of the finished digits. */
  lemma ResultBit(p: Plan, fa: bool, fb: bool, x: seq<digit>, y: seq<digit>, z: seq<digit>, k: nat)
    requires Possible(p, fa, fb) && IsResult(p, x, y, z)
    ensures Bit(Val(z), k) == BitOf(p.op, Flip(Bit(Val(x), k), fa), Flip(Bit(Val(y), k), fb))
  {
    var m, j := k / 15, k % 15;
    assert k == 15 * m + j;
    if m < |z| {
      BitInside(p, fa, fb, x, y, z, m, j);
    } else {
      BitBeyond(p, fa, fb, x, y, z, m, j);
    }
  }

  /** |a| or, for a negative operand, the digits of its complement. */
  method Complemented(a: Long) returns (x: Long, mask: digit)
    requires a.Norm()
    ensures x.Norm() && x.dsize >= 0 && mask == MaskOf(a.Value() < 0)
    ensures x.Value() == Plain(a.Value())
  {
    SignOf(a);
    if a.dsize < 0 {
      x := LongInvert(a);
      mask := 32767;
    } else {
      x := a;
      mask := 0;
    }
    SignOf(x);
  }

  /** Digit i of the result. */
  method CombinedDigit(p: Plan, a: Long, b: Long, i: nat) returns (d: digit)
    requires a.Norm() && b.Norm() && a.dsize >= 0 && b.dsize >= 0
    ensures d == Combined(p, a.Mag(), b.Mag(), i)
  {
    var diga := DigitOp(Xor, if i < a.dsize then a.digit[i] else 0, p.maska);
    var digb := DigitOp(Xor, if i < b.dsize then b.digit[i] else 0, p.maskb);
    d := DigitOp(p.op, diga, digb);
  }

  /** The digit loop of long_bitwise. */
  method CombineDigits(p: Plan, a: Long, b: Long) returns (z: Long)
    requires a.Norm() && b.Norm() && a.dsize >= 0 && b.dsize >= 0
    ensures fresh(z) && fresh(z.digit) && z.Valid() && z.dsize >= 0
    ensures IsResult(p, a.Mag(), b.Mag(), z.Mag())
  {
    z := new Long(ResultSize(p, a.dsize, b.dsize));
    ghost var xs, ys := a.Mag(), b.Mag();
    for i := 0 to z.dsize
      modifies z.digit
      invariant forall m :: 0 <= m < i ==> z.digit[m] == Combined(p, xs, ys, m)
    {
      z.digit[i] := CombinedDigit(p, a, b, i);
    }
  }

  /** Bit for bit, z is the operation on a and b. */
  ghost predicate BitsMatch(op: Op, a: int, b: int, z: int) {
    forall k: nat :: Bit(z, k) == BitOf(op, Bit(a, k), Bit(b, k))
  }

  /** x is a or, when a is negative, its complement. */
  function Plain(a: int): int {
    if a < 0 then -a - 1 else a
  }

  lemma PlainBit(a: int, k: nat)
    ensures Bit(a, k) == Flip(Bit(Plain(a), k), a < 0)
  {
    BitInvert(a, k);
  }

  /** Everything the finished digit loop knows about its operands. */
  ghost predicate Planned(op: Op, a: int, b: int, x: seq<digit>, y: seq<digit>, z: seq<digit>, p: Plan) {
    && p == Rewrite(op, MaskOf(a < 0), MaskOf(b < 0))
    && Val(x) == Plain(a) && Val(y) == Plain(b) && IsResult(p, x, y, z)
  }

  /** One bit, through complement, mask, operation and final complement. */
  lemma PlannedBit(op: Op, a: int, b: int, x: seq<digit>, y: seq<digit>, z: seq<digit>, p: Plan, k: nat)
    requires Planned(op, a, b, x, y, z, p)
    ensures Flip(Bit(Val(z), k), p.negz) == BitOf(op, Bit(a, k), Bit(b, k))
  {
    var fa, fb := PlanMasks(op, a < 0, b < 0);
    PlainBit(a, k);
    PlainBit(b, k);
    var u, v := Bit(Val(x), k), Bit(Val(y), k);
    assert Possible(p, fa, fb);
    ResultBit(p, fa, fb, x, y, z, k);
  }

  function Finished(p: Plan, v: int): int {
    if p.negz then -v - 1 else v
  }

  lemma FinishedBit(p: Plan, v: int, k: nat)
    ensures Bit(Finished(p, v), k) == Flip(Bit(v, k), p.negz)
  {
    BitInvert(v, k);
  }

  lemma PlanMatches(op: Op, a: int, b: int, x: seq<digit>, y: seq<digit>, z: seq<digit>, p: Plan)
    requires Planned(op, a, b, x, y, z, p)
    ensures BitsMatch(op, a, b, Finished(p, Val(z)))
  {
    var r := Finished(p, Val(z));
    forall k: nat
      ensures Bit(r, k) == BitOf(op, Bit(a, k), Bit(b, k))
    {
      PlannedBit(op, a, b, x, y, z, p, k);
      FinishedBit(p, Val(z), k);
    }
  }

  /** The tail of long_bitwise: normalise, and complement when planned. */
  method FinishBits(d: Long, p: Plan) returns (z: Long)
    requires d.Valid() && d.dsize >= 0
    modifies d`dsize
    ensures z.Norm() && z.Value() == Finished(p, old(d.Value()))
  {
    d.Normalize();
    if p.negz {
      z := LongInvert(d);
    } else {
      z := d;
    }
  }

  /** Complement, plan and combine: up to the final complement the bits are right. */
  method PlanDigits(a: Long, op: Op, b: Long) returns (d: Long, p: Plan)
    requires a.Norm() && b.Norm()
    ensures fresh(d) && fresh(d.digit) && d.Valid() && d.dsize >= 0
    ensures BitsMatch(op, a.Value(), b.Value(), Finished(p, d.Value()))
  {
    var x, maska := Complemented(a);
    var y, maskb := Complemented(b);
    p := Rewrite(op, maska, maskb);
    d := CombineDigits(p, x, y);
    PlanMatches(op, a.Value(), b.Value(), x.Mag(), y.Mag(), d.Mag(), p);
  }

  /** long_bitwise: bit by bit what the operation does to the two operands' bits. */
  method LongBitwise(a: Long, op: Op, b: Long) returns (z: Long)
    requires a.Norm() && b.Norm()
    ensures z.Norm() && BitsMatch(op, a.Value(), b.Value(), z.Value())
  {
    var d, p := PlanDigits(a, op, b);
    z := FinishBits(d, p);
  }

  /** The bits determine the result, so long_bitwise computes the one integer whose
      bits are those of the operation. */
  lemma BitwiseUnique(op: Op, a: int, b: int, z: int, z': int)
    requires BitsMatch(op, a, b, z) && BitsMatch(op, a, b, z')
    ensures z == z'
  {
    SameBits(z, z');
  }
}
