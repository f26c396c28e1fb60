/** Power, plain and modular, by square and multiply over the 15 bits of every
    digit of the exponent. */
module LongPower {
  import opened Digits
  import opened LongCore
  import opened LongSum
  import opened LongDiv
  import opened LongMul

  function IntPow(b: int, e: int): int
    decreases e
  {
    if e <= 0 then 1 else b * IntPow(b, e - 1)
  }

  /** x and y differ by a multiple of m; for m == 0 they are equal. */
  ghost predicate Cong(x: int, y: int, m: int) {
    exists k :: Differ(x, y, m, k)
  }

  ghost predicate Differ(x: int, y: int, m: int, k: int) {
    x == y + k * m
  }

  lemma CongRefl(x: int, m: int)
    ensures Cong(x, x, m)
  {
    assert Differ(x, x, m, 0);
  }

  lemma CongTrans(x: int, y: int, z: int, m: int)
    requires Cong(x, y, m) && Cong(y, z, m)
    ensures Cong(x, z, m)
  {
    var j :| Differ(x, y, m, j);
    var k :| Differ(y, z, m, k);
    assert (j + k) * m == j * m + k * m;
    assert Differ(x, z, m, j + k);
  }

  lemma CongMul(x: int, y: int, z: int, m: int)
    requires Cong(x, y, m)
    ensures Cong(z * x, z * y, m) && Cong(x * z, y * z, m)
  {
    var k :| Differ(x, y, m, k);
    assert z * (y + k * m) == z * y + (z * k) * m;
    assert Differ(z * x, z * y, m, z * k);
    assert x * z == z * x && y * z == z * y;
  }

  lemma {:induction false} CongPow(x: int, y: int, e: nat, m: int)
    requires Cong(x, y, m)
    ensures Cong(IntPow(x, e), IntPow(y, e), m)
  {
    if e == 0 {
      CongRefl(1, m);
    } else {
      CongPow(x, y, e - 1, m);
      CongMul(IntPow(x, e - 1), IntPow(y, e - 1), x, m);
      CongMul(x, y, IntPow(y, e - 1), m);
      CongTrans(IntPow(x, e), x * IntPow(y, e - 1), IntPow(y, e), m);
    }
  }

  lemma {:induction false} PowHalve(a: int, h: nat)
    ensures IntPow(a, 2 * h) == IntPow(a * a, h)
  {
    if h > 0 {
      PowHalve(a, h - 1);
      assert IntPow(a, 2 * h) == a * (a * IntPow(a, 2 * h - 2));
    }
  }

  /** The result is still z times a to the power e. */
  ghost predicate PowInv(z: int, a: int, e: nat, R: int, m: int) {
    Cong(z * IntPow(a, e), R, m)
  }

  lemma PowOdd(z: int, a: int, e: nat, z': int, R: int, m: int)
    requires PowInv(z, a, e, R, m) && e % 2 == 1 && Cong(z', z * a, m)
    ensures PowInv(z', a, e - 1, R, m)
  {
    var p := IntPow(a, e - 1);
    CongMul(z', z * a, p, m);
    assert (z * a) * p == z * IntPow(a, e);
    CongTrans(z' * p, z * IntPow(a, e), R, m);
  }

  lemma PowSquare(z: int, a: int, e: nat, a': int, R: int, m: int)
    requires PowInv(z, a, e, R, m) && e % 2 == 0 && Cong(a', a * a, m)
    ensures PowInv(z, a', e / 2, R, m)
  {
    PowHalve(a, e / 2);
    CongPow(a', a * a, e / 2, m);
    CongMul(IntPow(a', e / 2), IntPow(a * a, e / 2), z, m);
    CongTrans(z * IntPow(a', e / 2), z * IntPow(a, e), R, m);
  }

  /** z is the floor residue of R modulo c. */
  ghost predicate IsResidue(R: int, c: int, z: int) {
    exists q :: IsFloored(R, c, q, z)
  }

  /** There is only one floor residue. */
  lemma ResidueUnique(R: int, c: int, z1: int, z2: int)
    requires c != 0 && IsResidue(R, c, z1) && IsResidue(R, c, z2)
    ensures z1 == z2
  {
    var q1 :| IsFloored(R, c, q1, z1);
    var q2 :| IsFloored(R, c, q2, z2);
    FlooredUnique(R, c, q1, z1, q2, z2);
  }

  ghost function ModulusOf(c: Long?): int
    reads if c == null then {} else {c, c.digit}
    requires c != null ==> c.Valid()
  {
    if c == null then 0 else c.Value()
  }

  /** A product, reduced by the modulus when there is one. */
  method MulMod(x: Long, y: Long, c: Long?) returns (r: Long)
    requires x.Norm() && y.Norm() && (c != null ==> c.Norm() && c.Value() != 0)
    ensures fresh(r) && fresh(r.digit) && r.Norm()
    ensures Cong(r.Value(), x.Value() * y.Value(), ModulusOf(c))
  {
    r := LongMult(x, y);
    if c == null {
      CongRefl(r.Value(), 0);
    } else {
      ghost var p := r.Value();
      var ok, div, mod := LDivMod(r, c);
      assert (-div.Value()) * c.Value() == -(div.Value() * c.Value());
      assert Differ(mod.Value(), p, c.Value(), -div.Value());
      r := mod;
    }
  }

  method MultiplyIn(z: Long, a: Long, c: Long?, ghost e: nat, ghost R: int) returns (z': Long)
    requires z.Norm() && a.Norm() && (c != null ==> c.Norm() && c.Value() != 0)
    requires e % 2 == 1 && PowInv(z.Value(), a.Value(), e, R, ModulusOf(c))
    ensures z'.Norm() && PowInv(z'.Value(), a.Value(), e - 1, R, ModulusOf(c))
  {
    z' := MulMod(z, a, c);
    PowOdd(z.Value(), a.Value(), e, z'.Value(), R, ModulusOf(c));
  }

  method SquareUp(z: Long, a: Long, c: Long?, ghost e: nat, ghost R: int) returns (a': Long)
    requires z.Norm() && a.Norm() && (c != null ==> c.Norm() && c.Value() != 0)
    requires e % 2 == 0 && PowInv(z.Value(), a.Value(), e, R, ModulusOf(c))
    ensures a'.Norm() && PowInv(z.Value(), a'.Value(), e / 2, R, ModulusOf(c))
  {
    a' := MulMod(a, a, c);
    PowSquare(z.Value(), a.Value(), e, a'.Value(), R, ModulusOf(c));
  }

  lemma OneTimes(x: int)
    ensures x * 1 == x
  {
  }

  /** Multiply in when the lowest bit of the exponent e is set. */
  method TakeBit(z0: Long, a: Long, c: Long?, bits: nat, ghost e: nat, ghost R: int) returns (z: Long)
    requires z0.Norm() && a.Norm() && (c != null ==> c.Norm() && c.Value() != 0)
    requires e % 2 == bits % 2 && PowInv(z0.Value(), a.Value(), e, R, ModulusOf(c))
    ensures z.Norm() && PowInv(z.Value(), a.Value(), e - e % 2, R, ModulusOf(c))
  {
    z := z0;
    if bits % 2 == 1 {
      z := MultiplyIn(z0, a, c, e, R);
    }
  }

  lemma NothingLeft(z: int, a: int, R: int, m: int)
    requires PowInv(z, a, 0, R, m)
    ensures Cong(z, R, m)
  {
    assert IntPow(a, 0) == 1;
    OneTimes(z);
  }

  /** One bit of the exponent: multiply in, then square unless it was the last.
      n bits of this digit are still to come, `rest` is the exponent above. */
  method PowBit(z0: Long, a0: Long, c: Long?, bits: nat, ghost n: nat, last: bool, ghost rest: nat, ghost R: int)
    returns (z: Long, a: Long, bi: nat, done: bool)
    requires z0.Norm() && a0.Norm() && (c != null ==> c.Norm() && c.Value() != 0)
    requires n > 0 && (last ==> rest == 0)
    requires PowInv(z0.Value(), a0.Value(), bits + Pow2(n) * rest, R, ModulusOf(c))
    ensures z.Norm() && a.Norm() && bi == bits / 2 && (done <==> bi == 0 && last)
    ensures if done then Cong(z.Value(), R, ModulusOf(c))
            else PowInv(z.Value(), a.Value(), bi + Pow2(n - 1) * rest, R, ModulusOf(c))
  {
    ghost var e := bits + Pow2(n) * rest;
    ExponentBit(bits, n, rest);
    a := a0;
    z := TakeBit(z0, a, c, bits, e, R);
    e := e - e % 2;
    bi := bits / 2;
    done := bi == 0 && last;
    if done {
      NothingLeft(z.Value(), a.Value(), R, ModulusOf(c));
    } else {
      a := SquareUp(z, a0, c, e, R);
    }
  }

  /** The inner loop of long_pow: all 15 bits of one exponent digit, or up to the
      top bit of the last one. */
  method PowDigit(z0: Long, a0: Long, c: Long?, bits: digit, last: bool, ghost rest: nat, ghost R: int)
    returns (z: Long, a: Long)
    requires z0.Norm() && a0.Norm() && (c != null ==> c.Norm() && c.Value() != 0)
    requires last ==> rest == 0
    requires PowInv(z0.Value(), a0.Value(), bits + 32768 * rest, R, ModulusOf(c))
    ensures z.Norm() && a.Norm()
    ensures if last then Cong(z.Value(), R, ModulusOf(c)) else PowInv(z.Value(), a.Value(), rest, R, ModulusOf(c))
  {
    ghost var m := ModulusOf(c);
    z, a := z0, a0;
    var bi: nat := bits;
    var j := 0;
    ghost var n: nat := 15;
    Pow2Fifteen();
    while j < 15
      invariant 0 <= j <= 15 && n == 15 - j && bi < Pow2(n)
      invariant z.Norm() && a.Norm()
      invariant PowInv(z.Value(), a.Value(), bi + Pow2(n) * rest, R, m)
    {
      var done;
      z, a, bi, done := PowBit(z, a, c, bi, n, last, rest, R);
      if done {
        return;
      }
      j, n := j + 1, n - 1;
    }
    assert Pow2(0) == 1 && bi == 0;
    if last { NothingLeft(z.Value(), a.Value(), R, m); }
  }

  lemma ExponentBit(bi: nat, n: nat, rest: nat)
    requires n > 0
    ensures var e := bi + Pow2(n) * rest;
            && e % 2 == bi % 2
            && (e - bi % 2) / 2 == bi / 2 + Pow2(n - 1) * rest
  {
    assert Pow2(n) * rest == 2 * (Pow2(n - 1) * rest);
  }

  /** The value of the exponent digits from i on: one digit and the rest. */
  lemma ExponentDigit(b: seq<digit>, i: nat)
    requires i < |b|
    ensures Val(b[i..]) == b[i] + 32768 * Val(b[i + 1..])
    ensures Val(b[i + 1..]) >= 0 && (i + 1 == |b| ==> Val(b[i + 1..]) == 0)
  {
    assert b[i..] == [b[i]] + b[i + 1..];
    ValCons(b[i], b[i + 1..]);
    ValBound(b[i + 1..]);
  }

  /** long_pow: v to the power w, as it is or as its floor residue modulo x. Fails
      exactly on a zero modulus. */
  method LongPow(v: Long, w: Long, x: Long?) returns (ok: bool, z: Long?)
    requires v.Norm() && w.Norm() && w.dsize >= 0 && (x != null ==> x.Norm())
    ensures ok <==> x == null || x.Value() != 0
    ensures ok ==> z != null && z.Norm()
    ensures ok && x == null ==> z.Value() == IntPow(v.Value(), w.Value())
    ensures ok && x != null ==> IsResidue(IntPow(v.Value(), w.Value()), x.Value(), z.Value())
  {
    if x != null && x.dsize == 0 {
      SignOf(x);
      return false, null;
    }
    if x != null { SignOf(x); }
    ghost var R, bs := IntPow(v.Value(), w.Value()), w.Mag();
    var a := CopyLong(v, 0);
    var one := NewLong(1);
    var r := PowLoop(one, a, w, x, R);
    z := ReduceLast(r, x, R);
    return true, z;
  }

  /** The outer loop of long_pow. */
  method PowLoop(z0: Long, a0: Long, w: Long, c: Long?, ghost R: int) returns (z: Long)
    requires z0.Norm() && a0.Norm() && w.Norm() && w.dsize >= 0 && (c != null ==> c.Norm() && c.Value() != 0)
    requires z0.Value() == 1 && R == IntPow(a0.Value(), w.Value())
    ensures z.Norm() && Cong(z.Value(), R, ModulusOf(c))
  {
    ghost var m, bs := ModulusOf(c), w.Mag();
    z := z0;
    var a, i := a0, 0;
    assert bs[0..] == bs;
    CongRefl(R, m);
    ValBound(bs);
    while i < w.dsize
      invariant 0 <= i <= w.dsize == |bs| && z.Norm() && a.Norm()
      invariant i < w.dsize ==> Val(bs[i..]) >= 0 && PowInv(z.Value(), a.Value(), Val(bs[i..]), R, m)
      invariant i == w.dsize ==> Cong(z.Value(), R, m)
    {
      ExponentDigit(bs, i);
      z, a := PowDigit(z, a, c, w.digit[i], i + 1 == w.dsize, Val(bs[i + 1..]), R);
      i := i + 1;
    }
  }

  /** The last reduction: the residue of z is the residue of R. */
  method ReduceLast(z: Long, c: Long?, ghost R: int) returns (r: Long)
    requires z.Norm() && (c != null ==> c.Norm() && c.Value() != 0)
    requires Cong(z.Value(), R, ModulusOf(c))
    ensures r.Norm()
    ensures c == null ==> r.Value() == R
    ensures c != null ==> IsResidue(R, c.Value(), r.Value())
  {
    r := z;
    ghost var m := ModulusOf(c);
    ghost var k :| Differ(z.Value(), R, m, k);
    if c == null {
      assert k * 0 == 0;
    } else {
      var ok, div, mod := LDivMod(z, c);
      r := mod;
      assert (div.Value() - k) * m == div.Value() * m - k * m;
      assert IsFloored(R, c.Value(), div.Value() - k, r.Value());
    }
  }
}
