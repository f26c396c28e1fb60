/** Multiplication: the school method, Karatsuba's method (Knuth vol. 2, 4.3.3)
    with its deliberate wraparound, and lopsided operands in slices. */
module LongMul {
  import opened Digits
  import opened LongCore
  import opened LongSum
  import opened LongDiv

  const KARATSUBA_CUTOFF: nat := 35

  lemma PowAdd(m: nat, n: nat)
    ensures Pow(m + n) == Pow(m) * Pow(n)
  {
    ScaleScale(1, m, n);
    ScaleMul(Pow(m), n);
  }

  lemma ProductBound(x: int, y: int, m: nat, n: nat)
    requires 0 <= x < Pow(m) && 0 <= y < Pow(n)
    ensures 0 <= x * y < Pow(m + n)
  {
    PowAdd(m, n);
    MulMono(0, x, y);
    MulMono(x, Pow(m), y);
    MulMono(y + 1, Pow(n), Pow(m));
    PowPos(m);
    assert (y + 1) * Pow(m) == Pow(m) * y + Pow(m);
  }

  lemma ThreeParts(s: seq<digit>, lo: nat, m: nat)
    requires lo + m <= |s|
    ensures Val(s) == Val(s[..lo]) + Scale(Val(s[lo..lo + m]), lo) + Scale(Val(s[lo + m..]), lo + m)
  {
    ValSplit(s, lo + m);
    ValSplit(s[..lo + m], lo);
    assert s[..lo + m][..lo] == s[..lo] && s[..lo + m][lo..] == s[lo..lo + m];
  }

  /** What a finished window operation does to the whole buffer. */
  lemma ColumnsTotal(now: seq<digit>, was: seq<digit>, lo: nat, m: nat, y: int, c: int)
    requires Columns(now, was, lo, m, y, c)
    ensures Val(now) + Scale(c, lo + m) == Val(was) + Scale(y, lo)
  {
    ThreeParts(now, lo, m);
    ThreeParts(was, lo, m);
    var A, B := Val(now[lo..lo + m]), Val(was[lo..lo + m]);
    ScaleScale(c, m, lo);
    ScaleAdd(A, Scale(c, m), lo);
    ScaleAdd(B, y, lo);
  }

  // ----- x_mul -----

  /** One column of a row: at most 32 bits of sum, one digit of carry. */
  method MulColumn(z: digit, b: digit, f: digit, carryIn: u32) returns (d: digit, carry: u32)
    requires carryIn <= 32767
    ensures carry <= 32767
    ensures d + 32768 * carry == carryIn + z + b * f
  {
    MulRange(b, f);
    var sum: u32 := carryIn + (z as int + b as int * f);
    d := sum % 32768;
    carry := sum / 32768;
  }

  lemma RowStep(now: seq<digit>, was: seq<digit>, i: nat, j: nat, b: seq<digit>, f: int, c: int, d: digit, c': int)
    requires j < |b| && i + j < |was| && Columns(now, was, i, j, Val(b[..j]) * f, c)
    requires d + 32768 * c' == c + now[i + j] + b[j] * f
    ensures Columns(now[i + j := d], was, i, j + 1, Val(b[..j + 1]) * f, c')
  {
    ColumnsStep(now, was, i, j, Val(b[..j]) * f, c, b[j] * f, d, c');
    ValPrefix(b, j);
    ScaleTimes(b[j], f, j);
  }

  /** The first inner loop of x_mul: add f times b into the window at i. */
  method MulRow(z: array<digit>, i: nat, b: array<digit>, n: nat, f: digit) returns (carry: u32)
    requires i + n <= z.Length && n <= b.Length && z != b
    modifies z
    ensures carry <= 32767
    ensures Columns(z[..], old(z[..]), i, n, Val(b[..n]) * f, carry)
  {
    ghost var was, bs := z[..], b[..n];
    carry := 0;
    var j := 0;
    ColumnsStart(was, i);
    while j < n
      invariant 0 <= j <= n && carry <= 32767
      invariant Columns(z[..], was, i, j, Val(bs[..j]) * f, carry)
    {
      ghost var now, c := z[..], carry;
      var d;
      d, carry := MulColumn(z[i + j], b[j], f, carry);
      RowStep(now, was, i, j, bs, f, c, d, carry);
      z[i + j] := d;
      assert z[..] == now[i + j := d];
      j := j + 1;
    }
    assert bs[..n] == bs;
  }

  /** The second inner loop of x_mul. `total` is what the buffer must reach: it
      fits, so the carry is gone before the end of the buffer. */
  method MulRipple(z: array<digit>, ghost was: seq<digit>, i: nat, start: nat, ghost y: int, carryIn: u32, ghost total: int)
    requires i + start <= z.Length && carryIn <= 32767
    requires Columns(z[..], was, i, start, y, carryIn)
    requires Val(was) + Scale(y, i) == total < Pow(z.Length)
    modifies z
    ensures Val(z[..]) == total
  {
    var carry: u32, j := carryIn, start;
    while carry != 0
      invariant start <= j && i + j <= z.Length && carry <= 32767
      invariant Columns(z[..], was, i, j, y, carry)
      decreases z.Length - j, carry
    {
      ghost var now, c := z[..], carry;
      ColumnsTotal(now, was, i, j, y, carry);
      ScaleSign(carry, i + j);
      ValBound(now);
      carry := carry + z[i + j];
      var d: digit := carry % 32768;
      carry := carry / 32768;
      ColumnsStep(now, was, i, j, y, c, 0, d, carry);
      ScaleZero(j);
      z[i + j] := d;
      assert z[..] == now[i + j := d];
      j := j + 1;
    }
    ColumnsTotal(z[..], was, i, j, y, 0);
    ScaleZero(i + j);
  }

  /** x_mul: the school method. */
  method XMul(a: Long, b: Long) returns (z: Long)
    requires a.Valid() && b.Valid()
    ensures fresh(z) && fresh(z.digit) && z.Norm() && z.dsize >= 0
    ensures z.Value() == a.AbsVal() * b.AbsVal()
  {
    var sizeA, sizeB := Abs(a.dsize), Abs(b.dsize);
    z := new Long(sizeA + sizeB);
    ZeroDigits(z.digit, 0, sizeA + sizeB);
    ValZeros(z.digit[..]);
    ghost var xs, bv := a.Mag(), b.AbsVal();
    var i := 0;
    while i < sizeA
      modifies z.digit
      invariant 0 <= i <= sizeA
      invariant Val(z.digit[..]) == Val(xs[..i]) * bv
    {
      ghost var was := z.digit[..];
      var carry := MulRow(z.digit, i, b.digit, sizeB, a.digit[i]);
      ghost var total := Val(xs[..i + 1]) * bv;
      RowTotal(xs, b.Mag(), i);
      MulRipple(z.digit, was, i, sizeB, bv * a.digit[i], carry, total);
      i := i + 1;
    }
    assert xs[..i] == xs && z.Mag() == z.digit[..];
    z.Normalize();
  }

  /** The product so far plus one row, and its bound. */
  lemma RowTotal(a: seq<digit>, b: seq<digit>, i: nat)
    requires i < |a|
    ensures Val(a[..i]) * Val(b) + Scale(Val(b) * a[i], i) == Val(a[..i + 1]) * Val(b) < Pow(|a| + |b|)
  {
    ValPrefix(a, i);
    ScaleTimes(a[i], Val(b), i);
    assert Val(b) * a[i] == a[i] * Val(b);
    assert Val(a[..i + 1]) * Val(b) == Val(a[..i]) * Val(b) + Scale(a[i], i) * Val(b);
    ValBound(a[..i + 1]);
    ValBound(b);
    PowMono(i + 1, |a|);
    ProductBound(Val(a[..i + 1]), Val(b), |a|, |b|);
  }

  // ----- block moves -----

  /** memset to zero of n digits from `at` on. */
  method ZeroDigits(dst: array<digit>, at: nat, n: nat)
    requires at + n <= dst.Length
    modifies dst
    ensures dst[..at] == old(dst[..at]) && dst[at + n..] == old(dst[at + n..])
    ensures forall j :: 0 <= j < at || at + n <= j < dst.Length ==> dst[j] == old(dst[j])
    ensures forall m :: at <= m < at + n ==> dst[m] == 0
  {
    forall m | at <= m < at + n {
      dst[m] := 0;
    }
  }

  /** memcpy of n digits. */
  method CopyDigits(dst: array<digit>, at: nat, src: array<digit>, from: nat, n: nat)
    requires at + n <= dst.Length && from + n <= src.Length && dst != src
    modifies dst
    ensures dst[..at] == old(dst[..at]) && dst[at + n..] == old(dst[at + n..])
    ensures forall j :: 0 <= j < at || at + n <= j < dst.Length ==> dst[j] == old(dst[j])
    ensures dst[at..at + n] == src[from..from + n]
  {
    forall m | 0 <= m < n {
      dst[at + m] := src[from + m];
    }
  }

  // ----- Karatsuba -----

  /** kmul_split: |n| cut into `size` low digits and the rest, both normalised. */
  method KMulSplit(n: Long, size: nat) returns (high: Long, low: Long)
    requires n.Valid()
    ensures fresh(high) && fresh(high.digit) && high.Norm()
    ensures fresh(low) && fresh(low.digit) && low.Norm()
    ensures 0 <= low.dsize <= Min(Abs(n.dsize), size)
    ensures 0 <= high.dsize <= Abs(n.dsize) - Min(Abs(n.dsize), size)
    ensures n.AbsVal() == low.AbsVal() + Scale(high.AbsVal(), size)
  {
    var sizeLo := Min(Abs(n.dsize), size);
    var sizeHi := Abs(n.dsize) - sizeLo;
    high := new Long(sizeHi);
    low := new Long(sizeLo);
    CopyDigits(low.digit, 0, n.digit, 0, sizeLo);
    CopyDigits(high.digit, 0, n.digit, sizeLo, sizeHi);
    assert low.Mag() == low.digit[0..0 + sizeLo] == n.Mag()[..sizeLo];
    assert high.Mag() == high.digit[0..0 + sizeHi] == n.Mag()[sizeLo..];
    ValSplit(n.Mag(), sizeLo);
    ScaleZero(sizeLo);
    ScaleZero(size);
    high.Normalize();
    low.Normalize();
  }

  /** Steps 2 and 3 of k_mul: low product at 0, high product at 2 * shift, zeros
      in between and above. */
  method Place(ret: array<digit>, mid: nat, t1: Long, t2: Long)
    requires t1.Valid() && t2.Valid() && ret != t1.digit && ret != t2.digit
    requires Abs(t2.dsize) <= mid && mid + Abs(t1.dsize) <= ret.Length
    modifies ret
    ensures Val(ret[..]) == t2.AbsVal() + Scale(t1.AbsVal(), mid)
  {
    PlaceAt(ret, mid, ret.Length, t1);
    ghost var high := ret[mid..ret.Length];
    PlaceAt(ret, 0, mid, t2);
    assert ret[mid..ret.Length] == high && ret[0..mid] == ret[..][..mid] && high == ret[..][mid..];
    ValSplit(ret[..], mid);
  }

  /** The digits of t at `at`, zeros up to `end`. */
  method PlaceAt(ret: array<digit>, at: nat, end: nat, t: Long)
    requires t.Valid() && ret != t.digit && at + Abs(t.dsize) <= end <= ret.Length
    modifies ret
    ensures ret[..at] == old(ret[..at]) && ret[end..] == old(ret[end..])
    ensures Val(ret[at..end]) == t.AbsVal()
  {
    var n := Abs(t.dsize);
    CopyDigits(ret, at, t.digit, 0, n);
    ZeroDigits(ret, at + n, end - at - n);
    ghost var s := ret[at..end];
    assert s[..n] == ret[at..at + n] == t.Mag();
    ValZeroTail(s, n);
  }

  lemma Expand(a: int, b: int, c: int, d: int)
    ensures (a + b) * (c + d) == a * c + a * d + b * c + b * d
  {
  }

  lemma Slide(a: int, b: int, X: int)
    ensures a * (b * X) == (a * b) * X == (b * X) * a == (b * a) * X
  {
  }

  /** (ah X + al)(bh X + bl) from three products. */
  lemma KRing(al: int, ah: int, bl: int, bh: int, X: int)
    ensures (al + ah * X) * (bl + bh * X) ==
      al * bl + ((ah + al) * (bh + bl) - ah * bh - al * bl) * X + ((ah * bh) * X) * X
  {
    var u, v := ah * X, bh * X;
    Expand(ah, al, bh, bl);
    Expand(al, u, bl, v);
    Slide(al, bh, X);
    Slide(bl, ah, X);
    Slide(u, bh, X);
    Slide(bh, ah, X);
    Distributes(X, ah * bl, al * bh);
    assert (ah * bl + al * bh) * X == X * (ah * bl + al * bh);
  }

  lemma KIdentity(al: int, ah: int, bl: int, bh: int, s: nat)
    ensures (al + Scale(ah, s)) * (bl + Scale(bh, s)) ==
      al * bl + Scale((ah + al) * (bh + bl) - ah * bh - al * bl, s) + Scale(ah * bh, 2 * s)
  {
    var X := Pow(s);
    ScaleMul(ah, s);
    ScaleMul(bh, s);
    ScaleMul((ah + al) * (bh + bl) - ah * bh - al * bl, s);
    ScaleScale(ah * bh, s, s);
    ScaleMul(ah * bh, s);
    ScaleMul((ah * bh) * X, s);
    KRing(al, ah, bl, bh, X);
  }

  /** The heart of k_mul: two subtractions that may wrap below zero and one
      addition leave the true value T, because T fits the buffer. R0 to R3 are
      the buffer's contents before and after each of them; b1, b2, c are the
      borrows and the carry the code throws away. */
  lemma WrapsCancel(R0: seq<digit>, R1: seq<digit>, R2: seq<digit>, R3: seq<digit>, s: nat, i: nat,
                    t1: int, t2: int, t3: int, b1: int, b2: int, c: int, T: int)
    requires |R3| == s + i
    requires Val(R0) == t2 + Scale(t1, 2 * s)
    requires Columns(R1, R0, s, i, Neg(t2), Neg(b1))
    requires Columns(R2, R1, s, i, Neg(t1), Neg(b2))
    requires Columns(R3, R2, s, i, t3, c)
    requires T == t2 + Scale(t3 + Neg(t1) + Neg(t2), s) + Scale(t1, 2 * s) && 0 <= T < Pow(s + i)
    ensures Val(R3) == T
  {
    ColumnsTotal(R1, R0, s, i, Neg(t2), Neg(b1));
    ColumnsTotal(R2, R1, s, i, Neg(t1), Neg(b2));
    ColumnsTotal(R3, R2, s, i, t3, c);
    Sum3(t3, Neg(t1), Neg(t2), s);
    Sum3(c, Neg(b1), Neg(b2), s + i);
    ValBound(R3);
    ScaleZero(s + i);
    ScaleUnique(c + Neg(b1) + Neg(b2), Val(R3), 0, T, s + i);
  }

  lemma Sum3(x: int, y: int, z: int, i: nat)
    ensures Scale(x + y + z, i) == Scale(x, i) + Scale(y, i) + Scale(z, i)
  {
    ScaleAdd(x + y, z, i);
    ScaleAdd(x, y, i);
  }

  /** A product of two sums, each less than twice a power, has room for two bits. */
  lemma TwoBits(p: int, q: int, m: nat, n: nat)
    requires 0 <= p < 2 * Pow(m) && 0 <= q < 2 * Pow(n)
    ensures 0 <= p * q < Pow(m + n + 1)
  {
    PowAdd(m, n);
    PowPos(n);
    MulMono(0, p, q);
    MulMono(p, 2 * Pow(m), q);
    MulMono(q, 2 * Pow(n), 2 * Pow(m));
    assert (2 * Pow(n)) * (2 * Pow(m)) == 4 * (Pow(m) * Pow(n));
    PowPos(m + n);
  }

  /** Room for the middle product: the note (*) after k_mul. */
  lemma MiddleFits(ah: int, al: int, bh: int, bl: int, asize: nat, bsize: nat, s: nat)
    requires asize <= bsize < 2 * asize && s == bsize / 2 && s >= 1
    requires 0 <= ah < Pow(asize - s) && 0 <= al < Pow(s)
    requires 0 <= bh < Pow(bsize - s) && 0 <= bl < Pow(s)
    ensures 0 <= (ah + al) * (bh + bl) < Pow(asize + bsize - s)
  {
    var m := Max(asize - s, s);
    PowMono(asize - s, m);
    PowMono(s, m);
    PowMono(s, bsize - s);
    TwoBits(ah + al, bh + bl, m, bsize - s);
    PowMono(m + (bsize - s) + 1, asize + bsize - s);
  }

  /** Value bounds of the four halves. */
  lemma HalfBounds(high: Long, low: Long, size: nat, n: nat)
    requires high.Norm() && low.Norm() && size <= n
    requires 0 <= low.dsize <= size && 0 <= high.dsize <= n - size
    ensures 0 <= low.AbsVal() < Pow(size) && 0 <= high.AbsVal() < Pow(n - size)
  {
    NormBounds(low);
    NormBounds(high);
    PowMono(low.dsize, size);
    PowMono(high.dsize, n - size);
  }

  /** k_mul: |a| * |b|, for any digit arrays (leading zeros allowed). */
  method KMul(a: Long, b: Long) returns (ret: Long)
    requires a.Valid() && b.Valid()
    ensures fresh(ret) && fresh(ret.digit) && ret.Norm() && ret.dsize >= 0
    ensures ret.Value() == a.AbsVal() * b.AbsVal()
    decreases Abs(a.dsize) + Abs(b.dsize), 3
  {
    var x, y := a, b;
    if Abs(a.dsize) > Abs(b.dsize) {
      x, y := b, a;
    }
    assert a.AbsVal() * b.AbsVal() == x.AbsVal() * y.AbsVal();
    var asize, bsize := Abs(x.dsize), Abs(y.dsize);
    if asize <= KARATSUBA_CUTOFF {
      if asize == 0 {
        ret := new Long(0);
      } else {
        ret := XMul(x, y);
      }
    } else if 2 * asize <= bsize {
      ret := KLopsidedMul(x, y);
    } else {
      ret := KBalanced(x, y);
    }
  }

  /** The values of the four halves. */
  datatype Parts = Parts(ah: int, al: int, bh: int, bl: int) {
    /** The product of the two operands split at s digits. */
    ghost function Product(s: nat): int {
      (al + Scale(ah, s)) * (bl + Scale(bh, s))
    }

    ghost predicate Bounded(asize: nat, bsize: nat)
      requires asize <= bsize < 2 * asize
    {
      var s := bsize / 2;
      0 <= al < Pow(s) && 0 <= ah < Pow(asize - s) && 0 <= bl < Pow(s) && 0 <= bh < Pow(bsize - s)
    }
  }

  /** The four halves as normalised longs of values p. */
  ghost predicate Holds(ah: Long, al: Long, bh: Long, bl: Long, p: Parts, asize: nat, bsize: nat)
    requires asize <= bsize < 2 * asize
    reads {ah, al, bh, bl}, {ah.digit, al.digit, bh.digit, bl.digit}
  {
    var s := bsize / 2;
    && ah.Norm() && al.Norm() && bh.Norm() && bl.Norm()
    && 0 <= al.dsize <= s && 0 <= ah.dsize <= asize - s
    && 0 <= bl.dsize <= s && 0 <= bh.dsize <= bsize - s
    && p == Parts(ah.AbsVal(), al.AbsVal(), bh.AbsVal(), bl.AbsVal())
    && p.Bounded(asize, bsize)
  }

  lemma LongsBound(a: Long, b: Long)
    requires a.Valid() && b.Valid()
    ensures 0 <= a.AbsVal() * b.AbsVal() < Pow(Abs(a.dsize) + Abs(b.dsize))
  {
    ValBound(a.Mag());
    ValBound(b.Mag());
    ProductBound(a.AbsVal(), b.AbsVal(), Abs(a.dsize), Abs(b.dsize));
  }

  /** Both operands split at half the size of the larger. */
  method SplitBoth(a: Long, b: Long) returns (ah: Long, al: Long, bh: Long, bl: Long, ghost p: Parts)
    requires a.Valid() && b.Valid() && 0 < Abs(a.dsize) <= Abs(b.dsize) < 2 * Abs(a.dsize)
    ensures fresh({ah, al, bh, bl}) && fresh({ah.digit, al.digit, bh.digit, bl.digit})
    ensures Holds(ah, al, bh, bl, p, Abs(a.dsize), Abs(b.dsize))
    ensures p.Product(Abs(b.dsize) / 2) == a.AbsVal() * b.AbsVal()
    ensures 0 <= a.AbsVal() * b.AbsVal() < Pow(Abs(a.dsize) + Abs(b.dsize))
  {
    var shift := Abs(b.dsize) / 2;
    ah, al := KMulSplit(a, shift);
    bh, bl := KMulSplit(b, shift);
    HalfBounds(ah, al, shift, Abs(a.dsize));
    HalfBounds(bh, bl, shift, Abs(b.dsize));
    LongsBound(a, b);
    p := Parts(ah.AbsVal(), al.AbsVal(), bh.AbsVal(), bl.AbsVal());
  }

  /** Steps 1 to 3 of k_mul: both outer products in a fresh result buffer. */
  method OuterProducts(ah: Long, al: Long, bh: Long, bl: Long, ghost p: Parts, asize: nat, bsize: nat)
    returns (ret: Long, t1: Long, t2: Long)
    requires KARATSUBA_CUTOFF < asize <= bsize < 2 * asize && Holds(ah, al, bh, bl, p, asize, bsize)
    ensures fresh({ret, t1, t2}) && fresh({ret.digit, t1.digit, t2.digit})
    ensures ret.digit != t1.digit && ret.digit != t2.digit
    ensures ret.dsize == ret.digit.Length == asize + bsize
    ensures t1.Norm() && 0 <= t1.dsize <= asize + bsize - bsize / 2 && t1.AbsVal() == p.ah * p.bh
    ensures t2.Norm() && 0 <= t2.dsize <= asize + bsize - bsize / 2 && t2.AbsVal() == p.al * p.bl
    ensures Val(ret.digit[..]) == p.al * p.bl + Scale(p.ah * p.bh, 2 * (bsize / 2))
    decreases asize + bsize, 0
  {
    var shift := bsize / 2;
    ret := new Long(asize + bsize);
    t1 := KMul(ah, bh);
    ProductFits(t1, p.ah, p.bh, asize - shift, bsize - shift);
    t2 := KMul(al, bl);
    ProductFits(t2, p.al, p.bl, shift, shift);
    Place(ret.digit, 2 * shift, t1, t2);
  }

  /** Steps 4 and 5: take both outer products off the middle; the borrows are
      ignored, so either may wrap below zero. */
  method SubtractOuter(x: array<digit>, shift: nat, t1: Long, t2: Long)
    returns (ghost R1: seq<digit>, ghost b1: int, ghost b2: int)
    requires shift <= x.Length && t1.Valid() && t2.Valid() && x != t1.digit && x != t2.digit
    requires 0 <= t1.dsize <= x.Length - shift && 0 <= t2.dsize <= x.Length - shift
    modifies x
    ensures Columns(R1, old(x[..]), shift, x.Length - shift, Neg(t2.AbsVal()), Neg(b2))
    ensures Columns(x[..], R1, shift, x.Length - shift, Neg(t1.AbsVal()), Neg(b1))
  {
    var c2 := VISub(x, shift, x.Length - shift, t2.digit, t2.dsize);
    R1 := x[..];
    var c1 := VISub(x, shift, x.Length - shift, t1.digit, t1.dsize);
    b1, b2 := c1, c2;
  }

  /** (ah + al) * (bh + bl), which fits above the shift. */
  method MiddleProduct(ah: Long, al: Long, bh: Long, bl: Long, ghost p: Parts, asize: nat, bsize: nat)
    returns (t3: Long)
    requires KARATSUBA_CUTOFF < asize <= bsize < 2 * asize && Holds(ah, al, bh, bl, p, asize, bsize)
    ensures fresh(t3) && fresh(t3.digit) && t3.Norm() && 0 <= t3.dsize <= asize + bsize - bsize / 2
    ensures t3.AbsVal() == (p.ah + p.al) * (p.bh + p.bl)
    decreases asize + bsize, 0
  {
    var sa := XAdd(ah, al);
    var sb := XAdd(bh, bl);
    SumsSmaller(sa.dsize, sb.dsize, asize, bsize);
    t3 := KMul(sa, sb);
    MiddleFits(p.ah, p.al, p.bh, p.bl, asize, bsize, bsize / 2);
    NormFits(t3, asize + bsize - bsize / 2);
  }

  /** The sums of halves are smaller operands: why the recursion ends. */
  lemma SumsSmaller(sa: int, sb: int, asize: nat, bsize: nat)
    requires KARATSUBA_CUTOFF < asize <= bsize < 2 * asize
    requires sa <= Max(asize - bsize / 2, bsize / 2) + 1 && sb <= bsize - bsize / 2 + 1
    ensures sa + sb < asize + bsize
  {
  }

  /** The three-multiplication case of k_mul. */
  method KBalanced(a: Long, b: Long) returns (ret: Long)
    requires a.Valid() && b.Valid()
    requires KARATSUBA_CUTOFF < Abs(a.dsize) <= Abs(b.dsize) < 2 * Abs(a.dsize)
    ensures fresh(ret) && fresh(ret.digit) && ret.Norm() && ret.dsize >= 0
    ensures ret.Value() == a.AbsVal() * b.AbsVal()
    decreases Abs(a.dsize) + Abs(b.dsize), 2
  {
    var asize, bsize := Abs(a.dsize), Abs(b.dsize);
    ghost var T := a.AbsVal() * b.AbsVal();
    var ah, al, bh, bl, p := SplitBoth(a, b);
    ret := KCombine(ah, al, bh, bl, p, asize, bsize, T);
  }

  /** Steps 1 to 6 of k_mul over the four halves. */
  method KCombine(ah: Long, al: Long, bh: Long, bl: Long, ghost p: Parts, asize: nat, bsize: nat, ghost T: int)
    returns (ret: Long)
    requires KARATSUBA_CUTOFF < asize <= bsize < 2 * asize && Holds(ah, al, bh, bl, p, asize, bsize)
    requires 0 <= T == p.Product(bsize / 2) < Pow(asize + bsize)
    ensures fresh(ret) && fresh(ret.digit) && ret.Norm() && ret.dsize >= 0
    ensures ret.Value() == T
    decreases asize + bsize, 1
  {
    var shift := bsize / 2;
    ghost var R0, R1, R2, b1, b2;
    ret, R0, R1, R2, b1, b2 := OuterSteps(ah, al, bh, bl, p, asize, bsize);
    var t3 := MiddleProduct(ah, al, bh, bl, p, asize, bsize);
    AddMiddle(ret, shift, t3, p, R0, R1, R2, b1, b2, T);
  }

  /** Steps 1 to 5. */
  method OuterSteps(ah: Long, al: Long, bh: Long, bl: Long, ghost p: Parts, asize: nat, bsize: nat)
    returns (ret: Long, ghost R0: seq<digit>, ghost R1: seq<digit>, ghost R2: seq<digit>, ghost b1: int, ghost b2: int)
    requires KARATSUBA_CUTOFF < asize <= bsize < 2 * asize && Holds(ah, al, bh, bl, p, asize, bsize)
    ensures fresh(ret) && fresh(ret.digit) && ret.dsize == ret.digit.Length == asize + bsize && ret.digit[..] == R2
    ensures var s := bsize / 2;
            && Val(R0) == p.al * p.bl + Scale(p.ah * p.bh, 2 * s)
            && Columns(R1, R0, s, asize + bsize - s, Neg(p.al * p.bl), Neg(b2))
            && Columns(R2, R1, s, asize + bsize - s, Neg(p.ah * p.bh), Neg(b1))
    decreases asize + bsize, 1, 0
  {
    var t1, t2;
    ret, t1, t2 := OuterProducts(ah, al, bh, bl, p, asize, bsize);
    R0 := ret.digit[..];
    R1, b1, b2 := SubtractOuter(ret.digit, bsize / 2, t1, t2);
    R2 := ret.digit[..];
  }

  /** Step 6 of k_mul, which lands on the exact product. */
  method AddMiddle(ret: Long, shift: nat, t3: Long, ghost p: Parts, ghost R0: seq<digit>, ghost R1: seq<digit>,
                   ghost R2: seq<digit>, ghost b1: int, ghost b2: int, ghost T: int)
    requires ret.dsize == ret.digit.Length >= shift && ret.digit[..] == R2
    requires t3.Norm() && 0 <= t3.dsize <= ret.dsize - shift && t3.digit != ret.digit
    requires t3.AbsVal() == (p.ah + p.al) * (p.bh + p.bl)
    requires Val(R0) == p.al * p.bl + Scale(p.ah * p.bh, 2 * shift)
    requires Columns(R1, R0, shift, ret.digit.Length - shift, Neg(p.al * p.bl), Neg(b2))
    requires Columns(R2, R1, shift, ret.digit.Length - shift, Neg(p.ah * p.bh), Neg(b1))
    requires 0 <= T == p.Product(shift) < Pow(ret.dsize)
    modifies ret`dsize, ret.digit
    ensures ret.Norm() && ret.dsize >= 0 && ret.Value() == T
  {
    var i := ret.dsize - shift;
    var c := VIAdd(ret.digit, shift, i, t3.digit, t3.dsize);
    KIdentity(p.al, p.ah, p.bl, p.bh, shift);
    WrapsCancel(R0, R1, R2, ret.digit[..], shift, i, p.ah * p.bh, p.al * p.bl,
                (p.ah + p.al) * (p.bh + p.bl), b2, b1, c, T);
    assert ret.Mag() == ret.digit[..];
    ret.Normalize();
  }

  lemma ProductFits(t: Long, x: int, y: int, m: nat, n: nat)
    requires t.Norm() && t.AbsVal() == x * y && 0 <= x < Pow(m) && 0 <= y < Pow(n)
    ensures Abs(t.dsize) <= m + n
  {
    ProductBound(x, y, m, n);
    NormFits(t, m + n);
  }

  /** k_lopsided_mul: b in slices of a's width, one balanced product at a time. */
  method KLopsidedMul(a: Long, b: Long) returns (ret: Long)
    requires a.Valid() && b.Valid()
    requires Abs(a.dsize) > KARATSUBA_CUTOFF && 2 * Abs(a.dsize) <= Abs(b.dsize)
    ensures fresh(ret) && fresh(ret.digit) && ret.Norm() && ret.dsize >= 0
    ensures ret.Value() == a.AbsVal() * b.AbsVal()
    decreases Abs(a.dsize) + Abs(b.dsize), 2
  {
    var asize, bsize := Abs(a.dsize), Abs(b.dsize);
    ghost var xs, bs := a.Mag(), b.Mag();
    ret := new Long(asize + bsize);
    ZeroDigits(ret.digit, 0, asize + bsize);
    ValZeros(ret.digit[..]);
    var bslice := new Long(asize);
    var nbdone := 0;
    while bsize > 0
      modifies ret.digit, bslice, bslice.digit
      invariant 0 <= bsize && bsize + nbdone == |bs| && 0 <= nbdone && |bs| == Abs(b.dsize)
      invariant SlicesDone(ret.digit[..], xs, bs, nbdone)
      decreases bsize
    {
      var nbtouse := Min(bsize, asize);
      SliceStep(a, b, ret, bslice, nbdone, nbtouse);
      bsize := bsize - nbtouse;
      nbdone := nbdone + nbtouse;
    }
    assert bs[..nbdone] == bs && ret.Mag() == ret.digit[..];
    ret.Normalize();
  }

  /** The result so far is a times the digits of b used up. */
  ghost predicate SlicesDone(r: seq<digit>, a: seq<digit>, b: seq<digit>, k: nat) {
    k <= |b| && |r| == |a| + |b| && Val(r) == Val(a) * Val(b[..k])
  }

  /** One turn of k_lopsided_mul. */
  method SliceStep(a: Long, b: Long, ret: Long, bslice: Long, nbdone: nat, n: nat)
    requires a.Valid() && b.Valid() && nbdone + n <= Abs(b.dsize) && n <= Abs(a.dsize) < Abs(b.dsize)
    requires bslice.digit.Length == Abs(a.dsize) && {a, b} !! {ret, bslice} && ret != bslice
    requires {a.digit, b.digit} !! {ret.digit, bslice.digit} && ret.digit != bslice.digit
    requires ret.dsize == ret.digit.Length && SlicesDone(ret.digit[..], a.Mag(), b.Mag(), nbdone)
    modifies ret.digit, bslice`dsize, bslice.digit
    ensures SlicesDone(ret.digit[..], a.Mag(), b.Mag(), nbdone + n)
    decreases Abs(a.dsize) + Abs(b.dsize), 1
  {
    ghost var xs, bs := a.Mag(), b.Mag();
    TakeSlice(bslice, b, nbdone, n);
    var product := KMul(a, bslice);
    AddSlice(xs, bs, nbdone, n, product, ret);
  }

  /** The next slice of b, as a number of its own. */
  method TakeSlice(bslice: Long, b: Long, at: nat, n: nat)
    requires b.Valid() && at + n <= Abs(b.dsize) && n <= bslice.digit.Length
    requires bslice != b && bslice.digit != b.digit
    modifies bslice`dsize, bslice.digit
    ensures bslice.dsize == n && bslice.Valid() && bslice.Mag() == b.Mag()[at..at + n]
  {
    CopyDigits(bslice.digit, 0, b.digit, at, n);
    bslice.dsize := n;
    assert bslice.Mag() == bslice.digit[0..0 + n];
  }

  /** Add one slice's product into the result; nothing is carried out. */
  method AddSlice(ghost a: seq<digit>, ghost b: seq<digit>, nbdone: nat, ghost n: nat, product: Long, ret: Long)
    requires nbdone + n <= |b| && ret.digit.Length == ret.dsize == |a| + |b|
    requires product.Norm() && product.dsize >= 0 && product.digit != ret.digit
    requires product.AbsVal() == Val(a) * Val(b[nbdone..nbdone + n])
    requires SlicesDone(ret.digit[..], a, b, nbdone)
    modifies ret.digit
    ensures SlicesDone(ret.digit[..], a, b, nbdone + n)
  {
    ghost var R := ret.digit[..];
    ghost var slice := b[nbdone..nbdone + n];
    ValBound(a);
    ValBound(slice);
    ProductFits(product, Val(a), Val(slice), |a|, n);
    var c := VIAdd(ret.digit, nbdone, ret.dsize - nbdone, product.digit, product.dsize);
    ColumnsTotal(ret.digit[..], R, nbdone, ret.dsize - nbdone, product.AbsVal(), c);
    SliceTotal(a, b, nbdone, n);
    ValBound(ret.digit[..]);
    ScaleZero(ret.dsize);
    ScaleUnique(c, Val(ret.digit[..]), 0, Val(a) * Val(b[..nbdone + n]), ret.dsize);
  }

  lemma Distributes(x: int, y: int, z: int)
    ensures x * (y + z) == x * y + z * x
  {
  }

  lemma Commutes(x: int, y: int)
    ensures x * y == y * x
  {
  }

  lemma SliceTotal(a: seq<digit>, b: seq<digit>, k: nat, n: nat)
    requires k + n <= |b|
    ensures Val(a) * Val(b[..k]) + Scale(Val(a) * Val(b[k..k + n]), k) == Val(a) * Val(b[..k + n])
    ensures 0 <= Val(a) * Val(b[..k + n]) < Pow(|a| + |b|)
  {
    var low := b[..k + n];
    assert low[..k] == b[..k] && low[k..] == b[k..k + n];
    ValSplit(low, k);
    ScaleTimes(Val(b[k..k + n]), Val(a), k);
    Distributes(Val(a), Val(b[..k]), Scale(Val(b[k..k + n]), k));
    Commutes(Val(a), Val(b[k..k + n]));
    ValBound(a);
    ValBound(low);
    PowMono(k + n, |b|);
    ProductBound(Val(a), Val(low), |a|, |b|);
  }

  /** long_mul: the signed product. The operands are copied with one leading zero
      digit, so the splits below may see unnormalised input. */
  method LongMult(v: Long, w: Long) returns (z: Long)
    requires v.Valid() && w.Valid()
    ensures fresh(z) && fresh(z.digit) && z.Norm()
    ensures z.Value() == v.Value() * w.Value()
  {
    var a := CopyLong(v, 1);
    var b := CopyLong(w, 1);
    z := KMul(a, b);
    SignedProduct(v.AbsVal(), w.AbsVal());
    if (a.dsize < 0) != (b.dsize < 0) {
      Negate(z);
    }
  }

  lemma SignedProduct(x: int, y: int)
    ensures (-x) * y == -(x * y) && x * (-y) == -(x * y) && (-x) * (-y) == x * y
  {
  }
}
