/** Little-endian digit sequences in base 2^15 and the number they denote.
    Place values are written Scale(x, i) = x * BASE^i, which keeps the carry
    arithmetic of the digit loops linear. */
module Digits {
  const SHIFT: nat := 15
  const BASE: int := 32768

  type digit = d: int | 0 <= d < 32768

  /** x in place i: x * BASE^i. */
  function Scale(x: int, i: nat): int
  {
    if i == 0 then x else 32768 * Scale(x, i - 1)
  }

  /** BASE^n. */
  function Pow(n: nat): int {
    Scale(1, n)
  }

  /** The number a digit sequence denotes, least significant digit first. */
  function Val(s: seq<digit>): int
  {
    if s == [] then 0
    else Val(s[..|s| - 1]) + Scale(s[|s| - 1], |s| - 1)
  }

  function Abs(x: int): nat {
    if x < 0 then -x else x
  }

  function Min(x: int, y: int): int {
    if x < y then x else y
  }

  function Max(x: int, y: int): int {
    if x < y then y else x
  }

  // ----- place values -----

  lemma {:induction false} ScaleAdd(x: int, y: int, i: nat)
    ensures Scale(x + y, i) == Scale(x, i) + Scale(y, i)
  {
    if i > 0 {
      ScaleAdd(x, y, i - 1);
    }
  }

  lemma {:induction false} ScaleUp(x: int, i: nat)
    ensures Scale(32768 * x, i) == 32768 * Scale(x, i)
  {
    if i > 0 {
      ScaleUp(x, i - 1);
    }
  }

  /** The carry identity behind every digit loop: digit d with carry c into the
      next place stands for the column sum s. */
  lemma Carry(i: nat, d: int, c: int, s: int)
    requires d + 32768 * c == s
    ensures Scale(d, i) + Scale(c, i + 1) == Scale(s, i)
  {
    ScaleUp(c, i);
    ScaleAdd(d, 32768 * c, i);
  }

  lemma {:induction false} ScaleMul(x: int, i: nat)
    ensures Scale(x, i) == x * Pow(i)
  {
    if i > 0 {
      ScaleMul(x, i - 1);
      assert 32768 * (x * Pow(i - 1)) == x * (32768 * Pow(i - 1));
    }
  }

  lemma {:induction false} ScaleScale(x: int, i: nat, j: nat)
    ensures Scale(Scale(x, i), j) == Scale(x, i + j)
  {
    if j > 0 {
      ScaleScale(x, i, j - 1);
    }
  }

  lemma {:induction false} ScaleMono(x: int, y: int, i: nat)
    requires x <= y
    ensures Scale(x, i) <= Scale(y, i)
    ensures x < y ==> Scale(x, i) + Pow(i) <= Scale(y, i)
  {
    if i > 0 {
      ScaleMono(x, y, i - 1);
    }
  }

  lemma {:induction false} ScaleZero(i: nat)
    ensures Scale(0, i) == 0
  {
    if i > 0 {
      ScaleZero(i - 1);
    }
  }

  lemma {:induction false} PowPos(n: nat)
    ensures Pow(n) > 0
  {
    if n > 0 {
      PowPos(n - 1);
    }
  }

  lemma {:induction false} PowMono(m: nat, n: nat)
    requires m <= n
    ensures 0 < Pow(m) <= Pow(n)
    ensures m < n ==> 32768 * Pow(m) <= Pow(n)
  {
    if m < n {
      PowMono(m, n - 1);
    } else {
      PowPos(m);
    }
  }

  /** A negative number in place i stays negative by at least BASE^i, and so on:
      Scale preserves sign. */
  lemma ScaleSign(x: int, i: nat)
    ensures x >= 0 ==> Scale(x, i) >= 0
    ensures x >= 1 ==> Scale(x, i) >= Pow(i)
    ensures x <= -1 ==> Scale(x, i) <= -Pow(i)
  {
    ScaleZero(i);
    PowPos(i);
    if x >= 0 { ScaleMono(0, x, i); } else { ScaleMono(x, 0, i); }
  }

  /** Quotient and remainder by BASE^i are unique. */
  lemma ScaleUnique(q1: int, r1: int, q2: int, r2: int, i: nat)
    requires 0 <= r1 < Pow(i) && 0 <= r2 < Pow(i)
    requires r1 + Scale(q1, i) == r2 + Scale(q2, i)
    ensures q1 == q2 && r1 == r2
  {
    if q1 < q2 { ScaleMono(q1, q2, i); }
    if q2 < q1 { ScaleMono(q2, q1, i); }
  }

  // ----- digit sequences -----

  lemma ValSnoc(s: seq<digit>, d: digit)
    ensures Val(s + [d]) == Val(s) + Scale(d, |s|)
  {
    assert (s + [d])[..|s|] == s;
  }

  /** Growing a prefix by one digit, the step every digit loop takes. */
  lemma ValPrefix(s: seq<digit>, i: nat)
    requires i < |s|
    ensures Val(s[..i + 1]) == Val(s[..i]) + Scale(s[i], i)
  {
    assert s[..i + 1] == s[..i] + [s[i]];
    ValSnoc(s[..i], s[i]);
  }

  /** A sequence splits anywhere into a low part and a scaled high part. */
  lemma {:induction false} ValConcat(a: seq<digit>, b: seq<digit>)
    ensures Val(a + b) == Val(a) + Scale(Val(b), |a|)
  {
    if b == [] {
      assert a + b == a;
      ScaleZero(|a|);
    } else {
      var t, d := b[..|b| - 1], b[|b| - 1];
      assert a + b == (a + t) + [d] && b == t + [d];
      ValSnoc(a + t, d);
      ValSnoc(t, d);
      ValConcat(a, t);
      ScaleScale(d, |t|, |a|);
      ScaleAdd(Val(t), Scale(d, |t|), |a|);
    }
  }

  lemma ValSplit(s: seq<digit>, i: nat)
    requires i <= |s|
    ensures Val(s) == Val(s[..i]) + Scale(Val(s[i..]), i)
  {
    assert s == s[..i] + s[i..];
    ValConcat(s[..i], s[i..]);
  }

  lemma ValOne(d: digit)
    ensures Val([d]) == d
  {
    ValSnoc([], d);
    assert [] + [d] == [d];
  }

  lemma ValCons(d: digit, s: seq<digit>)
    ensures Val([d] + s) == d + 32768 * Val(s)
  {
    ValConcat([d], s);
    ValOne(d);
  }

  /** n digits hold only numbers from 0 to BASE^n - 1. */
  lemma {:induction false} ValBound(s: seq<digit>)
    ensures 0 <= Val(s) < Pow(|s|)
  {
    if s != [] {
      var t, d := s[..|s| - 1], s[|s| - 1];
      ValBound(t);
      ScaleSign(d, |t|);
      ScaleMono(d, 32768, |t|);
      ScaleUp(1, |t|);
    }
  }

  lemma ValTop(s: seq<digit>)
    requires s != [] && s[|s| - 1] != 0
    ensures Val(s) >= Pow(|s| - 1)
  {
    ValBound(s[..|s| - 1]);
    ScaleSign(s[|s| - 1], |s| - 1);
  }

  lemma TopNonZero(s: seq<digit>)
    requires s != [] && Val(s) >= Pow(|s| - 1)
    ensures s[|s| - 1] != 0
  {
    ValBound(s[..|s| - 1]);
    ScaleZero(|s| - 1);
  }

  lemma {:induction false} ValZeros(s: seq<digit>)
    requires forall i :: 0 <= i < |s| ==> s[i] == 0
    ensures Val(s) == 0
  {
    if s != [] {
      ValZeros(s[..|s| - 1]);
      ScaleZero(|s| - 1);
    }
  }

  /** Zero digits above position i do not change the value. */
  lemma ValZeroTail(s: seq<digit>, i: nat)
    requires i <= |s| && forall m :: i <= m < |s| ==> s[m] == 0
    ensures Val(s) == Val(s[..i])
  {
    ValSplit(s, i);
    ValZeros(s[i..]);
    ScaleZero(i);
  }

  /** Two digit strings of one length with the same value are the same. */
  lemma {:induction false} ValInjective(s: seq<digit>, t: seq<digit>)
    requires |s| == |t| && Val(s) == Val(t)
    ensures s == t
  {
    if s != [] {
      var a, b := s[..|s| - 1], t[..|t| - 1];
      ValBound(a);
      ValBound(b);
      ScaleUnique(s[|s| - 1], Val(a), t[|t| - 1], Val(b), |a|);
      ValInjective(a, b);
      assert s == a + [s[|s| - 1]] && t == b + [t[|t| - 1]];
    }
  }

  // ----- bits -----

  /** 2^k. */
  function Pow2(k: nat): nat
    ensures Pow2(k) > 0
  {
    if k == 0 then 1 else 2 * Pow2(k - 1)
  }

  lemma Pow2Fifteen()
    ensures Pow2(15) == 32768
  {
    assert Pow2(5) == 32;
    assert Pow2(10) == 1024;
  }

  lemma {:induction false} Pow2Add(m: nat, n: nat)
    ensures Pow2(m + n) == Pow2(m) * Pow2(n)
  {
    if n > 0 {
      Pow2Add(m, n - 1);
      assert Pow2(m) * (2 * Pow2(n - 1)) == 2 * (Pow2(m) * Pow2(n - 1));
    }
  }

  /** A digit is 15 bits. */
  lemma {:induction false} PowIsPow2(n: nat)
    ensures Pow(n) == Pow2(15 * n)
  {
    if n > 0 {
      PowIsPow2(n - 1);
      Pow2Add(15 * (n - 1), 15);
      Pow2Fifteen();
    }
  }
}
