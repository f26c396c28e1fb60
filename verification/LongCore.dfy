/** The arbitrary-precision integer record and its single-digit and additive
    primitives: normalisation, carries and borrows in place, signed sums. */
module LongCore {
  import opened Digits

  /** long_t: `digit` is the allocated buffer, |dsize| the digits in use, the
      sign of dsize the sign of the number. */
  class Long {
    var dsize: int
    const digit: array<digit>

    ghost predicate Valid()
      reads this
    {
      Abs(dsize) <= digit.Length
    }

    /** The digits in use. */
    ghost function Mag(): seq<digit>
      reads this, digit
      requires Valid()
    {
      digit[..Abs(dsize)]
    }

    /** The absolute value. */
    ghost function AbsVal(): int
      reads this, digit
      requires Valid()
    {
      Val(Mag())
    }

    ghost function Value(): int
      reads this, digit
      requires Valid()
    {
      if dsize < 0 then -AbsVal() else AbsVal()
    }

    /** The top digit in use is not zero. */
    ghost predicate Norm()
      reads this, digit
    {
      Valid() && (dsize != 0 ==> digit[Abs(dsize) - 1] != 0)
    }

    /** new_longp_non_init: digits uninitialised, all of them in use. */
    constructor (size: nat)
      ensures fresh(digit) && digit.Length == size && dsize == size
    {
      digit := new digit[size];
      dsize := size;
    }

    /** long_normalize: drop leading zero digits in place. */
    method Normalize()
      requires Valid()
      modifies this`dsize
      ensures Norm() && AbsVal() == old(AbsVal()) && Value() == old(Value())
      ensures Abs(dsize) <= old(Abs(dsize))
      ensures dsize != 0 ==> (dsize < 0 <==> old(dsize) < 0)
    {
      var j := Abs(dsize);
      var i := j;
      while i > 0 && digit[i - 1] == 0
        invariant 0 <= i <= j
        invariant forall m :: i <= m < j ==> digit[m] == 0
      {
        i := i - 1;
      }
      ghost var m := Mag();
      ValZeroTail(m, i);
      assert m[..i] == digit[..i];
      if i != j {
        dsize := if dsize < 0 then -i else i;
      }
    }
  }

  /** A normalised magnitude is bounded on both sides by its length. */
  lemma NormBounds(z: Long)
    requires z.Norm()
    ensures 0 <= z.AbsVal() < Pow(Abs(z.dsize))
    ensures z.dsize != 0 ==> z.AbsVal() >= Pow(Abs(z.dsize) - 1)
    ensures z.AbsVal() == 0 <==> z.dsize == 0
  {
    ValBound(z.Mag());
    PowPos(Abs(z.dsize));
    if z.dsize != 0 {
      ValTop(z.Mag());
      PowPos(Abs(z.dsize) - 1);
    }
  }

  /** The sign of the size is the sign of the number. */
  lemma SignOf(z: Long)
    requires z.Norm()
    ensures z.Value() < 0 <==> z.dsize < 0
    ensures z.Value() == 0 <==> z.dsize == 0
  {
    NormBounds(z);
    if z.dsize != 0 { PowPos(Abs(z.dsize) - 1); }
  }

  /** A normalised number below BASE^n uses at most n digits. */
  lemma NormFits(z: Long, n: nat)
    requires z.Norm() && z.AbsVal() < Pow(n)
    ensures Abs(z.dsize) <= n
  {
    if Abs(z.dsize) > n {
      NormBounds(z);
      PowMono(n, Abs(z.dsize) - 1);
    }
  }

  /** The representation is unique: equal numbers have equal digits and sign. */
  lemma NormUnique(a: Long, b: Long)
    requires a.Norm() && b.Norm() && a.Value() == b.Value()
    ensures a.dsize == b.dsize && a.Mag() == b.Mag()
  {
    NormBounds(a);
    NormBounds(b);
    NormFits(a, Abs(b.dsize));
    NormFits(b, Abs(a.dsize));
    ValInjective(a.Mag(), b.Mag());
  }

  /** copy_longp, with `padding` extra zero digits on top. */
  method CopyLong(src: Long, padding: nat) returns (r: Long)
    requires src.Valid()
    ensures fresh(r) && fresh(r.digit) && r.Valid()
    ensures r.AbsVal() == src.AbsVal() && r.Value() == src.Value()
    ensures Abs(r.dsize) == Abs(src.dsize) + padding
    ensures r.dsize < 0 <==> src.dsize < 0
    ensures padding == 0 && src.Norm() ==> r.Norm()
  {
    var n := Abs(src.dsize) + padding;
    r := new Long(n);
    if src.dsize < 0 {
      r.dsize := -n;
    }
    var i := n;
    while i > 0
      invariant 0 <= i <= n
      modifies r.digit
      invariant forall m :: i <= m < n ==> r.digit[m] == if m >= Abs(src.dsize) then 0 else src.digit[m]
    {
      i := i - 1;
      r.digit[i] := if i >= Abs(src.dsize) then 0 else src.digit[i];
    }
    ValZeroTail(r.Mag(), Abs(src.dsize));
    assert r.Mag()[..Abs(src.dsize)] == src.Mag();
  }

  type i64 = x: int | -0x8000_0000_0000_0000 <= x < 0x8000_0000_0000_0000

  /** The counting loop of new_longp: how many digits n needs. */
  method CountDigits(n: nat) returns (ndigits: nat)
    ensures n < Pow(ndigits)
    ensures ndigits > 0 ==> n >= Pow(ndigits - 1)
  {
    ndigits := 0;
    var t := n;
    while t != 0
      invariant 0 <= t && Scale(t, ndigits) <= n < Scale(t + 1, ndigits)
      invariant ndigits > 0 ==> n >= Pow(ndigits - 1)
      decreases t
    {
      var q := t / 32768;
      ScaleSign(t, ndigits);
      ScaleUp(q, ndigits);
      ScaleUp(q + 1, ndigits);
      ScaleMono(32768 * q, t, ndigits);
      ScaleMono(t + 1, 32768 * (q + 1), ndigits);
      ndigits := ndigits + 1;
      t := q;
    }
  }

  /** new_longp: count the digits, then peel them off from the bottom. */
  method NewLong(ival: i64) returns (v: Long)
    ensures fresh(v) && fresh(v.digit) && v.Norm() && v.Value() == ival
  {
    var n: nat := Abs(ival);
    var ndigits := CountDigits(n);
    v := new Long(ndigits);
    var size: int := ndigits;
    v.dsize := if ival < 0 then -size else size;
    var t, k := n, 0;
    ScaleZero(0);
    while t != 0
      modifies v.digit
      invariant 0 <= t && 0 <= k <= ndigits
      invariant Val(v.digit[..k]) + Scale(t, k) == n
      decreases t
    {
      ScaleSign(t, k);
      ValBound(v.digit[..k]);
      if k >= ndigits { PowMono(ndigits, k); }
      ghost var low := v.digit[..k];
      v.digit[k] := t % 32768;
      ValSnoc(low, t % 32768);
      assert v.digit[..k + 1] == low + [t % 32768];
      Carry(k, t % 32768, t / 32768, t);
      k := k + 1;
      t := t / 32768;
    }
    ScaleZero(k);
    ValBound(v.digit[..k]);
    if k < ndigits { PowMono(k, ndigits - 1); }
    assert v.Mag() == v.digit[..k];
    if ndigits > 0 { TopNonZero(v.digit[..k]); }
  }
}
