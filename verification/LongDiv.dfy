/** Division: single-digit kernels, Algorithm D of Knuth vol. 2, 4.3.1, and the
    signed quotient and remainder built on it. */
module LongDiv {
  import opened Digits
  import opened LongCore
  import opened LongSum

  /** twodigits at its narrowest width. */
  type u32 = x: int | 0 <= x < 0x1_0000_0000

  lemma {:induction false} ScaleTimes(x: int, n: int, i: nat)
    ensures Scale(x * n, i) == Scale(x, i) * n
  {
    if i > 0 {
      ScaleTimes(x, n, i - 1);
    }
  }

  // ----- one-digit kernels -----

  ghost predicate Multiplied(z: seq<digit>, a: seq<digit>, i: nat, n: int, extra: int, c: int)
  {
    i <= |z| && i <= |a| && Val(z[..i]) + Scale(c, i) == Val(a[..i]) * n + extra
  }

  lemma MultipliedStep(z: seq<digit>, a: seq<digit>, i: nat, n: int, extra: int, c: int, d: digit, c': int)
    requires i < |z| && i < |a| && Multiplied(z, a, i, n, extra, c)
    requires d + 32768 * c' == c + a[i] * n
    ensures Multiplied(z[i := d], a, i + 1, n, extra, c')
  {
    assert z[i := d][..i + 1] == z[..i] + [d];
    ValSnoc(z[..i], d);
    ValPrefix(a, i);
    Carry(i, d, c', c + a[i] * n);
    ScaleAdd(c, a[i] * n, i);
    ScaleTimes(a[i], n, i);
  }

  /** muladd1: multiply by one digit and add another. */
  method MulAdd1(a: Long, n: digit, extra: digit) returns (z: Long)
    requires a.Valid()
    ensures fresh(z) && fresh(z.digit) && z.Norm() && z.dsize >= 0
    ensures z.Value() == a.AbsVal() * n + extra
    ensures z.dsize <= Abs(a.dsize) + 1
  {
    var size := Abs(a.dsize);
    z := new Long(size + 1);
    ghost var xs := a.Mag();
    var carry: u32 := extra;
    var i := 0;
    while i < size
      modifies z.digit
      invariant 0 <= i <= size && carry < 32768
      invariant Multiplied(z.digit[..], xs, i, n, extra, carry)
    {
      ghost var now, c := z.digit[..], carry;
      MulRange(a.digit[i], n);
      carry := carry + a.digit[i] as int * n;
      var d: digit := carry % 32768;
      carry := carry / 32768;
      MultipliedStep(now, xs, i, n, extra, c, d, carry);
      z.digit[i] := d;
      assert z.digit[..] == now[i := d];
      i := i + 1;
    }
    ghost var low := z.digit[..size];
    assert z.digit[..][..size] == low && xs[..size] == xs;
    z.digit[size] := carry;
    ValSnoc(low, carry);
    assert z.Mag() == low + [z.digit[size]];
    z.Normalize();
  }

  lemma MulMono(a: int, b: int, c: int)
    requires a <= b && 0 <= c
    ensures a * c <= b * c
  {
  }

  lemma MulRange(a: int, b: int)
    requires 0 <= a <= 32767 && 0 <= b <= 32767
    ensures 0 <= a * b <= 32767 * 32767
  {
    MulMono(0, a, b);
    MulMono(a, 32767, b);
  }

  /** State of the top-down division loop over the digits k.. of `was`. */
  ghost predicate Divided(out: seq<digit>, was: seq<digit>, k: nat, dsize: nat, n: int, rem: int)
  {
    k <= dsize <= |out| && dsize == |was| && Val(was[k..]) == Val(out[k..dsize]) * n + rem
  }

  lemma DividedStep(out: seq<digit>, was: seq<digit>, k: nat, dsize: nat, n: int, rem: int, h: digit, rem': int)
    requires k < dsize && Divided(out, was, k + 1, dsize, n, rem)
    requires rem' == rem * 32768 + was[k] - h * n
    ensures Divided(out[k := h], was, k, dsize, n, rem')
  {
    var done := out[k + 1..dsize];
    assert out[k := h][k..dsize] == [h] + done && was[k..] == [was[k]] + was[k + 1..];
    ValCons(h, done);
    ValCons(was[k], was[k + 1..]);
    QuotientColumn(Val(was[k + 1..]), Val(done), n, rem, was[k], h, rem');
  }

  lemma QuotientColumn(v: int, q: int, n: int, r: int, x: int, h: int, r': int)
    requires v == q * n + r && r' == r * 32768 + x - h * n
    ensures x + 32768 * v == (h + 32768 * q) * n + r'
  {
  }

  /** A remainder below n, shifted up by one digit, has a one-digit quotient. */
  function DigitQuotient(rem: u32, n: digit): (q: digit)
    requires n > 0 && rem < n * 32768
    ensures 0 <= rem - q * n < n
  {
    var q := rem / n;
    assert q < 32768 by {
      if q >= 32768 { MulMono(32768, q, n); }
    }
    q
  }

  /** inplace_divrem1: divide by one digit from the top down. pout and pin may be
      the same array. */
  method InplaceDivRem1(pout: array<digit>, pin: array<digit>, dsize: nat, n: digit) returns (r: digit)
    requires n > 0 && dsize <= pout.Length && dsize <= pin.Length
    modifies pout
    ensures r < n
    ensures old(Val(pin[..dsize])) == Val(pout[..dsize]) * n + r
    ensures pout[dsize..] == old(pout[dsize..])
  {
    ghost var was, high := pin[..dsize], pout[dsize..];
    var rem: u32 := 0;
    var k: int := dsize;
    while k > 0
      invariant 0 <= k <= dsize && rem < n
      invariant pin[..k] == was[..k] && pout[dsize..] == high
      invariant Divided(pout[..], was, k, dsize, n, rem)
    {
      ghost var now, r0 := pout[..], rem;
      k := k - 1;
      assert pin[k] == was[k] by { assert pin[..k + 1][k] == was[..k + 1][k]; }
      rem := rem * 32768 + pin[k];
      var hi := DigitQuotient(rem, n);
      rem := rem - hi as int * n;
      DividedStep(now, was, k, dsize, n, r0, hi, rem);
      pout[k] := hi;
      assert pout[..] == now[k := hi];
      assert pin[..k] == was[..k] by { assert was[..k] == was[..k + 1][..k]; }
    }
    r := rem;
    assert was[0..] == was && pout[..][0..dsize] == pout[..dsize];
  }

  /** Dividing by one digit shortens a normalised number by at most one digit. */
  lemma QuotientTop(a: seq<digit>, q: seq<digit>, n: digit, r: digit)
    requires |q| == |a| > 0 && a[|a| - 1] != 0 && 0 < n && r < n
    requires Val(a) == Val(q) * n + r
    ensures q[|q| - 1] != 0 || |q| == 1 || q[|q| - 2] != 0
    ensures |q| == 1 && q[0] == 0 ==> Val(q) == 0
  {
    var m := |q| - 1;
    if q[m] == 0 && m > 0 {
      ValTop(a);
      assert q == q[..m] + [q[m]];
      ValSnoc(q[..m], q[m]);
      ScaleZero(m);
      ValBound(q[..m]);
      NotTooSmall(Val(q), n, r, Pow(m - 1));
      TopNonZero(q[..m]);
    } else if m == 0 && q[0] == 0 {
      ValZeros(q);
    }
  }

  lemma NotTooSmall(q: int, n: digit, r: nat, p: int)
    requires 0 <= q && 0 < n && r < n && 32768 * p <= q * n + r
    ensures p <= q
  {
    if q < p {
      MulMono(n, 32767, q);
      MulMono(q, p - 1, 32767);
    }
  }

  /** divrem1: quotient and remainder of |a| by one digit. */
  method DivRem1(a: Long, n: digit) returns (z: Long, rem: digit)
    requires a.Valid() && n > 0
    ensures fresh(z) && fresh(z.digit) && z.Norm() && z.dsize >= 0
    ensures a.AbsVal() == z.Value() * n + rem && rem < n
  {
    var dsize := Abs(a.dsize);
    z := new Long(dsize);
    rem := InplaceDivRem1(z.digit, a.digit, dsize, n);
    z.Normalize();
  }

  // ----- Algorithm D -----

  function Two(hi: int, lo: int): int { hi * 32768 + lo }

  function Three(hi: int, mid: int, lo: int): int { Two(Two(hi, mid), lo) }

  /** q is the quotient of the three top digits u by the two top divisor digits
      m, cut off at one digit. */
  ghost predicate IsTrial(q: int, u: int, m: int)
  {
    0 <= q <= 32767 && q * m <= u && (q == 32767 || u < (q + 1) * m)
  }

  /** The trial digit: a guess from one divisor digit, corrected with a second.
      Every two-digit intermediate fits u32. */
  method TrialDigit(vj: digit, vj1: digit, vj2: digit, wt: digit, ws: digit) returns (q: u32)
    requires 0 < wt && vj <= wt
    ensures IsTrial(q, Three(vj, vj1, vj2), Two(wt, ws))
  {
    var two: u32 := Two(vj, vj1);
    if vj == wt {
      q := 32767;
    } else {
      q := DigitQuotient(two, wt);
    }
    ghost var m, u := Two(wt, ws), Two(two, vj2);
    TrialStart(two, wt, ws, vj2, q);
    while OverGuess(q, two, wt, ws, vj2)
      invariant q <= 32767 && 0 <= two - q * wt < 65536
      invariant q == 32767 || u < (q + 1) * m
      decreases q
    {
      TrialBack(two, wt, ws, vj2, q);
      q := q - 1;
    }
    TrialDone(two, wt, ws, vj2, q);
  }

  /** The loop test of the correction, in unsigned two-digit arithmetic. */
  predicate OverGuess(q: u32, two: u32, wt: digit, ws: digit, vj2: digit)
    requires q <= 32767 && 0 <= two - q * wt < 65536
  {
    MulRange(q, ws);
    var lhs: u32 := ws as int * q;
    var rhs: u32 := (two - q * wt) * 32768 + vj2;
    lhs > rhs
  }

  lemma TrialStart(two: int, wt: digit, ws: digit, v: digit, q: int)
    requires 0 < wt && 0 <= q <= 32767
    requires (q == 32767 && Two(wt, 0) <= two < Two(wt, 0) + 32768) || 0 <= two - q * wt < wt
    ensures 0 <= two - q * wt < 65536
    ensures q == 32767 || Two(two, v) < (q + 1) * Two(wt, ws)
  {
    if !(q == 32767 && Two(wt, 0) <= two < Two(wt, 0) + 32768) {
      assert (q + 1) * wt >= two + 1;
      assert (q + 1) * Two(wt, ws) == ((q + 1) * wt) * 32768 + (q + 1) * ws;
      MulMono(0, q + 1, ws);
    }
  }

  lemma TrialBack(two: int, wt: digit, ws: digit, v: digit, q: int)
    requires 0 <= q <= 32767 && 0 <= two - q * wt < 65536
    requires ws as int * q > (two - q * wt) * 32768 + v
    ensures q > 0 && 0 <= two - (q - 1) * wt < 65536
    ensures Two(two, v) < (q - 1 + 1) * Two(wt, ws)
  {
    MulRange(q, ws);
    assert two - q * wt < 32768;
    assert (q - 1) * wt == q * wt - wt;
    assert q * Two(wt, ws) == (q * wt) * 32768 + q * ws;
  }

  lemma TrialDone(two: int, wt: digit, ws: digit, v: digit, q: int)
    requires ws as int * q <= (two - q * wt) * 32768 + v
    ensures q * Two(wt, ws) <= Two(two, v)
  {
    assert q * Two(wt, ws) == (q * wt) * 32768 + q * ws;
  }

  lemma Ring(q: int, wl: int, m: int, p: int)
    ensures q * (wl + m * p) == q * wl + (q * m) * p
  {
  }

  lemma GuessNotTooLarge(q: int, u: int, m: int, ul: int, wl: int, p: int)
    requires 0 <= q <= 32767 < m && q * m <= u && 0 <= ul && 0 <= wl < p
    ensures q * (wl + m * p) <= (ul + u * p) + (wl + m * p)
  {
    Ring(q, wl, m, p);
    var qm := q * m;
    MulMono(qm, u, p);
    MulMono(wl, p, q);
    MulMono(q, m, p);
  }

  lemma GuessNotTooSmall(q: int, u: int, m: int, ul: int, wl: int, p: int)
    requires 0 <= q && 0 <= m && u < (q + 1) * m && 0 <= ul < p && 0 <= wl
    ensures ul + u * p < (q + 1) * (wl + m * p)
  {
    Ring(q + 1, wl, m, p);
    var qm := (q + 1) * m;
    MulMono(u + 1, qm, p);
    MulMono(0, q + 1, wl);
  }

  /** The corrected guess is the true quotient digit or one more. U and W are
      dividend window and divisor, u and m their leading digits, p the place
      value of what is cut off. */
  lemma TrialIsClose(q: int, u: int, m: int, ul: int, wl: int, p: int, U: int, W: int)
    requires IsTrial(q, u, m) && m >= 32768
    requires 0 <= ul < p && 0 <= wl < p
    requires U == ul + u * p && W == wl + m * p && 0 <= U < 32768 * W
    ensures -W <= U - q * W < W
  {
    GuessNotTooLarge(q, u, m, ul, wl, p);
    if q < 32767 {
      GuessNotTooSmall(q, u, m, ul, wl, p);
    }
    assert (q + 1) * W == q * W + W;
  }

  /** One column of the multiply-and-subtract loop, with the C shifts: zz is the
      high half of the product z, and the signed carry is shifted arithmetically
      (floor division). Nothing leaves the signed two-digit range. */
  method SubMulColumn(v: digit, w: digit, q: u32, carryIn: int) returns (d: digit, carry: int)
    requires q <= 32767 && -32768 <= carryIn <= 0
    ensures -32768 <= carry <= 0
    ensures d + 32768 * carry == carryIn + v - w * q
  {
    MulRange(w, q);
    var z: u32 := w as int * q;
    var zz: digit := z / 32768;
    carry := carryIn + (v - z + zz as int * 32768);
    assert -0x8000_0000 <= carry < 0x8000_0000;
    d := carry % 32768;
    carry := carry / 32768;
    carry := carry - zz;
  }

  /** Subtract q times the divisor from the window at k; the carry is what is
      still to be subtracted from the digit above the window. */
  method SubMul(v: array<digit>, k: nat, w: array<digit>, n: nat, q: u32) returns (carry: int)
    requires k + n <= v.Length && n <= w.Length && v != w && q <= 32767
    modifies v
    ensures -32768 <= carry <= 0
    ensures Columns(v[..], old(v[..]), k, n, Neg(Val(w[..n]) * q), carry)
  {
    ghost var was, ws := v[..], w[..n];
    carry := 0;
    var i := 0;
    ColumnsStart(was, k);
    while i < n
      invariant 0 <= i <= n && -32768 <= carry <= 0
      invariant Columns(v[..], was, k, i, Neg(Val(ws[..i]) * q), carry)
    {
      ghost var now, c := v[..], carry;
      var d;
      d, carry := SubMulColumn(v[k + i], w[i], q, carry);
      ghost var y := Neg(Val(ws[..i]) * q);
      ColumnsStep(now, was, k, i, y, c, Neg(ws[i] * q), d, carry);
      MoreSubtracted(ws, i, q);
      v[k + i] := d;
      assert v[..] == now[k + i := d];
      i := i + 1;
    }
    assert ws[..n] == ws;
  }

  lemma MoreSubtracted(w: seq<digit>, i: nat, q: int)
    requires i < |w|
    ensures Neg(Val(w[..i]) * q) + Scale(Neg(w[i] * q), i) == Neg(Val(w[..i + 1]) * q)
  {
    ScaleNeg(w[i] * q, i);
    ScaleTimes(w[i], q, i);
    ValPrefix(w, i);
  }

  /** Add the divisor back to the window at k; the carry out of it is dropped. */
  method AddBack(v: array<digit>, k: nat, w: array<digit>, n: nat) returns (ghost carry: int)
    requires k + n <= v.Length && n <= w.Length && v != w
    modifies v
    ensures Columns(v[..], old(v[..]), k, n, Val(w[..n]), carry)
  {
    ghost var was, ws := v[..], w[..n];
    var c: int := 0;
    var i := 0;
    ColumnsStart(was, k);
    while i < n
      invariant 0 <= i <= n && 0 <= c <= 1
      invariant Columns(v[..], was, k, i, Val(ws[..i]), c)
    {
      ghost var now, c0 := v[..], c;
      c := c + (v[k + i] as int + w[i]);
      var d: digit := c % 32768;
      c := c / 32768;
      ColumnsStep(now, was, k, i, Val(ws[..i]), c0, ws[i], d, c);
      ValPrefix(ws, i);
      v[k + i] := d;
      assert v[..] == now[k + i := d];
      i := i + 1;
    }
    assert ws[..n] == ws;
    carry := c;
  }

  /** The window result plus its carry is D: the carry is 0 or -1, by the sign of D. */
  lemma CarryIsBit(r: int, c: int, n: nat, D: int, W: int)
    requires 0 <= r < Pow(n) && 0 < W <= Pow(n) && -W <= D < W
    requires r + Scale(c, n) == D
    ensures c == 0 || c == -1
    ensures c == 0 <==> D >= 0
  {
    ScaleSign(c - 1, n);
    ScaleSign(c + 1, n);
    ScaleAdd(c, 1, n);
    ScaleAdd(c, -1, n);
    ScaleNeg(1, n);
    ScaleZero(n);
  }

  /** Adding the divisor back makes a negative window positive again; the carry
      out cancels the missing digit. */
  lemma AddBackExact(r: int, c: int, n: nat, D: int, W: int)
    requires 0 <= r < Pow(n) && 0 < W <= Pow(n) && -W <= D < 0
    requires r + Scale(c, n) == D + Pow(n) + W
    ensures r == D + W
  {
    ScaleUnique(c, r, 1, D + W, n);
  }

  /** The digit above the window, zero beyond the end of the dividend. */
  function DigitAt(v: seq<digit>, j: nat, size: nat): digit
    requires size <= |v|
  {
    if j >= size then 0 else v[j]
  }

  lemma WindowValue(v: seq<digit>, k: nat, n: nat, size: nat)
    requires k + n <= size <= |v|
    requires forall m :: k + n < m < size ==> v[m] == 0
    ensures Val(v[k..size]) == Val(v[k..k + n]) + Scale(DigitAt(v, k + n, size), n)
  {
    var s := v[k..size];
    if k + n < size {
      ValZeroTail(s, n + 1);
      ValPrefix(s, n);
      assert s[..n] == v[k..k + n];
    } else {
      ScaleZero(n);
    }
  }

  lemma TopTwo(w: seq<digit>)
    requires |w| >= 2
    ensures Val(w) == Val(w[..|w| - 2]) + Scale(Two(w[|w| - 1], w[|w| - 2]), |w| - 2)
  {
    var n := |w| - 2;
    assert w[..n + 1] == w[..|w| - 1];
    ValPrefix(w, n);
    Carry(n, w[n], w[n + 1], Two(w[n + 1], w[n]));
  }

  /** The window splits into three leading digits and the rest. */
  lemma TopThree(win: seq<digit>, vj: digit)
    requires |win| >= 2
    ensures Val(win) + Scale(vj, |win|) ==
      Val(win[..|win| - 2]) + Scale(Three(vj, win[|win| - 1], win[|win| - 2]), |win| - 2)
  {
    var n := |win| - 2;
    TopTwo(win);
    ScaleUp(vj, n);
    ScaleUp(32768 * vj, n);
    ScaleAdd(0x4000_0000 * vj, Two(win[n + 1], win[n]), n);
    assert Scale(vj, n + 2) == 32768 * Scale(vj, n + 1);
  }

  /** A partial remainder below W * BASE has a leading digit at most W's. */
  lemma LeadingFits(win: seq<digit>, vj: digit, w: seq<digit>)
    requires |win| == |w| >= 1
    requires Val(win) + Scale(vj, |w|) < 32768 * Val(w)
    ensures vj <= w[|w| - 1]
  {
    var n := |w| - 1;
    var wt: int := w[n];
    ValBound(win);
    ValBound(w[..n]);
    ScaleMono(wt, wt + 1, n);
    ScaleAdd(wt, 1, n);
    if vj > w[n] {
      ScaleMono(wt + 1, vj, n + 1);
      assert false;
    }
  }

  /** What the trial digit of a step guarantees about the whole window. */
  lemma TrialForWindow(win: seq<digit>, vj: digit, w: seq<digit>, q: int)
    requires |win| == |w| >= 2 && w[|w| - 1] > 0
    requires Val(win) + Scale(vj, |w|) < 32768 * Val(w)
    requires IsTrial(q, Three(vj, win[|w| - 1], win[|w| - 2]), Two(w[|w| - 1], w[|w| - 2]))
    ensures -Val(w) <= Val(win) + Scale(vj, |w|) - q * Val(w) < Val(w)
  {
    var n := |w| - 2;
    var u := Three(vj, win[n + 1], win[n]);
    var m := Two(w[n + 1], w[n]);
    TopThree(win, vj);
    TopTwo(w);
    ScaleMul(u, n);
    ScaleMul(m, n);
    ValBound(win[..n]);
    ValBound(w[..n]);
    ValBound(win);
    ScaleSign(vj, |w|);
    var U, W, p := Val(win) + Scale(vj, |w|), Val(w), Pow(n);
    assert U == Val(win[..n]) + u * p && W == Val(w[..n]) + m * p;
    TrialIsClose(q, u, m, Val(win[..n]), Val(w[..n]), p, U, W);
  }

  /** Clearing the digit above the window moves it into the carry. */
  lemma TakeTop(now: seq<digit>, was: seq<digit>, k: nat, n: nat, sizeV: nat, y: int, c: int, next: seq<digit>, c': int)
    requires Columns(now, was, k, n, y, c) && k + n <= sizeV <= |was|
    requires forall m :: k + n < m < sizeV ==> was[m] == 0
    requires next == if k + n < sizeV then now[k + n := 0] else now
    requires c' == c + DigitAt(was, k + n, sizeV)
    ensures next[..k] == was[..k] && next[k..k + n] == now[k..k + n]
    ensures forall m :: k + n <= m < sizeV ==> next[m] == 0
    ensures Val(next[k..k + n]) + Scale(c', n) == Val(was[k..k + n]) + Scale(DigitAt(was, k + n, sizeV), n) + y
  {
    ScaleAdd(c, DigitAt(was, k + n, sizeV), n);
    forall m | k + n <= m < sizeV
      ensures next[m] == 0
    {
      assert now[m] == now[k + n..][m - k - n] == was[k + n..][m - k - n] == was[m];
    }
  }

  /** The first half of a step: guess the digit and subtract. */
  method Reduce(v: array<digit>, sizeV: nat, w: array<digit>, n: nat, k: nat) returns (q: u32, carry: int)
    requires 2 <= n <= w.Length && k + n <= sizeV <= v.Length && v != w && w[n - 1] > 0
    requires forall m :: k + n < m < sizeV ==> v[m] == 0
    requires Val(v[k..sizeV]) < 32768 * Val(w[..n])
    modifies v
    ensures q <= 32767 && v[..k] == old(v[..k])
    ensures forall m :: k + n <= m < sizeV ==> v[m] == 0
    ensures Val(v[k..k + n]) + Scale(carry, n) == old(Val(v[k..sizeV])) - q * Val(w[..n])
    ensures -Val(w[..n]) <= old(Val(v[k..sizeV])) - q * Val(w[..n]) < Val(w[..n])
  {
    ghost var was, win, ws := v[..], v[k..k + n], w[..n];
    assert was[k..k + n] == win && was[k..sizeV] == v[k..sizeV];
    var j := k + n;
    var vj: digit := if j >= sizeV then 0 else v[j];
    WindowValue(was, k, n, sizeV);
    LeadingFits(win, vj, ws);
    q := TrialDigit(vj, v[j - 1], v[j - 2], w[n - 1], w[n - 2]);
    TrialForWindow(win, vj, ws, q);
    carry := SubMul(v, k, w, n, q);
    ghost var now, c := v[..], carry;
    assert now[j..] == was[j..];
    if j < sizeV {
      assert now[j] == now[j..][0] == was[j..][0];
      carry := carry + v[j];
      v[j] := 0;
    }
    TakeTop(now, was, k, n, sizeV, Neg(Val(ws) * q), c, v[..], carry);
    assert v[..][k..k + n] == v[k..k + n] && v[..][..k] == v[..k] && was[..k] == old(v[..k]);
  }

  /** The second half of a step, when the guess was one too large: add back. */
  method Restore(v: array<digit>, sizeV: nat, w: array<digit>, n: nat, k: nat, ghost D: int)
    requires n <= w.Length && k + n <= sizeV <= v.Length && v != w
    requires forall m :: k + n <= m < sizeV ==> v[m] == 0
    requires Val(v[k..k + n]) - Pow(n) == D && -Val(w[..n]) <= D < 0
    modifies v
    ensures v[..k] == old(v[..k])
    ensures forall m :: k + n <= m < sizeV ==> v[m] == 0
    ensures Val(v[k..k + n]) == D + Val(w[..n])
  {
    ghost var now := v[..];
    assert now[k..k + n] == v[k..k + n] && now[..k] == v[..k];
    ghost var c := AddBack(v, k, w, n);
    FrameAround(v[..], now, k, n);
    assert v[..][k..k + n] == v[k..k + n] && v[..][..k] == v[..k];
    ValBound(v[k..k + n]);
    ValBound(w[..n]);
    AddBackExact(Val(v[k..k + n]), c, n, D, Val(w[..n]));
  }

  lemma FrameAround(now: seq<digit>, was: seq<digit>, k: nat, n: nat)
    requires |now| == |was| && k + n <= |was| && now[k + n..] == was[k + n..]
    ensures forall m :: k + n <= m < |was| ==> now[m] == was[m]
  {
    forall m | k + n <= m < |was|
      ensures now[m] == was[m]
    {
      assert now[m] == now[k + n..][m - k - n] == was[k + n..][m - k - n] == was[m];
    }
  }

  /** One turn of the main loop of x_divrem: produce quotient digit k. The
      assertion inside is the C one, that the carry is 0 or -1. */
  method DivStep(v: array<digit>, sizeV: nat, w: array<digit>, n: nat, k: nat) returns (qd: digit)
    requires 2 <= n <= w.Length && k + n <= sizeV <= v.Length && v != w && w[n - 1] > 0
    requires forall m :: k + n < m < sizeV ==> v[m] == 0
    requires Val(v[k..sizeV]) < 32768 * Val(w[..n])
    modifies v
    ensures v[..k] == old(v[..k])
    ensures forall m :: k + n <= m < sizeV ==> v[m] == 0
    ensures Val(v[k..sizeV]) == old(Val(v[k..sizeV])) - qd * Val(w[..n])
    ensures 0 <= Val(v[k..sizeV]) < Val(w[..n])
  {
    ghost var W, U := Val(w[..n]), Val(v[k..sizeV]);
    ValBound(w[..n]);
    ValBound(v[k..sizeV]);
    var q, carry := Reduce(v, sizeV, w, n, k);
    ghost var D := U - q * W;
    ValBound(v[k..k + n]);
    CarryIsBit(Val(v[k..k + n]), carry, n, D, W);
    ScaleZero(n);
    ScaleNeg(1, n);
    if carry == 0 {
      qd := q;
    } else {
      assert carry == -1;
      qd := q - 1;
      Restore(v, sizeV, w, n, k, D);
    }
    OneLess(q, W);
    WindowOnly(v[..], k, n, sizeV);
    assert v[..][k..sizeV] == v[k..sizeV] && v[..][k..k + n] == v[k..k + n];
  }

  lemma OneLess(q: int, W: int)
    ensures (q - 1) * W == q * W - W
  {
  }

  lemma WindowOnly(v: seq<digit>, k: nat, n: nat, size: nat)
    requires k + n <= size <= |v|
    requires forall m :: k + n <= m < size ==> v[m] == 0
    ensures Val(v[k..size]) == Val(v[k..k + n])
  {
    WindowValue(v, k, n, size);
    ScaleZero(n);
  }

  /** Invariant of the main loop, with digits k.. of the quotient known: the
      dividend is what is left of v plus quotient times W. */
  ghost predicate DivState(v: seq<digit>, a: seq<digit>, k: nat, W: int, total: int)
  {
    k <= |a| && total == Val(v) + Scale(Val(a[k..]) * W, k)
  }

  lemma DivStateStep(v0: seq<digit>, v1: seq<digit>, a: seq<digit>, k: nat, qd: digit, W: int, total: int)
    requires k < |v0| == |v1| && k < |a| && DivState(v0, a, k + 1, W, total)
    requires v0[..k] == v1[..k] && Val(v1[k..]) == Val(v0[k..]) - qd * W
    ensures DivState(v1, a[k := qd], k, W, total)
  {
    var X := Val(a[k + 1..]);
    assert a[k := qd][k..] == [qd] + a[k + 1..];
    ValCons(qd, a[k + 1..]);
    assert (qd + 32768 * X) * W == qd * W + 32768 * (X * W);
    Carry(k, qd * W, X * W, qd * W + 32768 * (X * W));
    ValSplit(v0, k);
    ValSplit(v1, k);
    ScaleAdd(Val(v1[k..]), qd * W, k);
  }

  /** The next partial dividend is below W * BASE. */
  lemma NextBelow(v: seq<digit>, k: nat, W: int)
    requires k < |v| && Val(v[k + 1..]) < W
    ensures Val(v[k..]) < 32768 * W
  {
    assert v[k..] == [v[k]] + v[k + 1..];
    ValCons(v[k], v[k + 1..]);
  }

  /** The main loop: divide the value in v (overwritten by the remainder) by w. */
  method DivLoop(v: array<digit>, size: nat, w: array<digit>, n: nat, a: array<digit>)
    requires 2 <= n <= w.Length && n <= size <= v.Length && a.Length == size - n + 1
    requires v != w && v != a && a != w && w[n - 1] > 0
    modifies v, a
    ensures old(Val(v[..size])) == Val(v[..size]) + Val(a[..]) * Val(w[..n])
    ensures 0 <= Val(v[..size]) < Val(w[..n])
  {
    ghost var W, total := Val(w[..n]), Val(v[..size]);
    ghost var ws := w[..n];
    ValTop(ws);
    var k: int := a.Length - 1;
    StartBelow(v[..size], a[..], k + 1, n, W);
    assert v[..size][k + 1..] == v[k + 1..size];
    while k >= 0
      invariant -1 <= k <= size - n && w[..n] == ws
      invariant forall m :: k + n < m < size ==> v[m] == 0
      invariant 0 <= Val(v[k + 1..size]) < W
      invariant DivState(v[..size], a[..], k + 1, W, total)
    {
      ghost var v0, a0 := v[..size], a[..];
      assert v0[k + 1..] == v[k + 1..size];
      NextBelow(v0, k, W);
      assert v0[k..] == v[k..size] && v0[..k] == v[..k];
      var qd := DivStep(v, size, w, n, k);
      assert v[..size][k..] == v[k..size] && v[..size][..k] == v[..k];
      DivStateStep(v0, v[..size], a0, k, qd, W, total);
      a[k] := qd;
      assert a[..] == a0[k := qd];
      k := k - 1;
    }
    assert v[0..size] == v[..size] && a[..][0..] == a[..];
  }

  lemma StartBelow(v: seq<digit>, a: seq<digit>, k: nat, n: nat, W: int)
    requires n <= |v| && k == |v| - n + 1 == |a| && 1 <= n && Pow(n - 1) <= W
    ensures k <= |v| && 0 <= Val(v[k..]) < W && DivState(v, a, k, W, Val(v))
  {
    ValBound(v[k..]);
    ScaleZero(k);
    assert a[k..] == [];
  }

  lemma ScaledBelow(x: int, t: int, P: int, d: int)
    requires 0 <= x < t * P && d >= 1 && d * t <= 32768 && P > 0
    ensures x <= x * d < 32768 * P
  {
    var dt := d * t;
    MulMono(1, d, x);
    MulMono(x + 1, t * P, d);
    assert (t * P) * d == dt * P;
    MulMono(dt, 32768, P);
  }

  /** Scaling by d keeps the divisor's length. */
  lemma ScaledSizes(w1: seq<digit>, d: int)
    requires w1 != [] && w1[|w1| - 1] != 0 && d == 32768 / (w1[|w1| - 1] as int + 1)
    ensures Pow(|w1| - 1) <= Val(w1) * d < Pow(|w1|)
  {
    var n, t := |w1| - 1, w1[|w1| - 1] as int;
    ValTop(w1);
    ValBound(w1[..n]);
    ScaleAdd(t, 1, n);
    ScaleMul(t + 1, n);
    PowPos(n);
    ScaledBelow(Val(w1), t + 1, Pow(n), d);
  }

  /** Undoing the scaling is exact. V and W are the scaled operands. */
  lemma Unscale(v: int, w: int, V: int, W: int, d: int, q: int, R: int, r: int, r0: int)
    requires d >= 1 && V == v * d && W == w * d && V == R + q * W && 0 <= R < W
    requires R == r * d + r0 && 0 <= r0 < d
    ensures r0 == 0 && v == q * w + r && 0 <= r < w
  {
    var x := v - q * w - r;
    assert q * W == (q * w) * d;
    UnscaleTimes(v, q * w, r, d);
    if x >= 1 { MulMono(1, x, d); } else if x <= -1 { MulMono(x, -1, d); }
    if r >= w { MulMono(w, r, d); }
    if r < 0 { MulMono(r, -1, d); }
  }

  lemma UnscaleTimes(v: int, y: int, r: int, d: int)
    ensures (v - y - r) * d == v * d - y * d - r * d
  {
  }

  /** Both operands times the normalisation factor. */
  method Scaled(v1: Long, w1: Long) returns (d: digit, v: Long, w: Long)
    requires v1.Norm() && w1.Norm() && 2 <= Abs(w1.dsize) <= Abs(v1.dsize)
    ensures fresh({v, w}) && fresh({v.digit, w.digit}) && v.digit != w.digit && v.Norm() && w.Norm()
    ensures d > 0 && v.AbsVal() == v1.AbsVal() * d && w.AbsVal() == w1.AbsVal() * d
    ensures 0 <= w.dsize == Abs(w1.dsize) <= v.dsize
  {
    d := 32768 / (w1.digit[Abs(w1.dsize) - 1] as int + 1);
    v := MulAdd1(v1, d, 0);
    w := MulAdd1(w1, d, 0);
    SameLength(v1, w1, v, w, d);
  }

  /** x_divrem: quotient and remainder of absolute values by a divisor of at
      least two digits. */
  method XDivRem(v1: Long, w1: Long) returns (a: Long, rem: Long)
    requires v1.Norm() && w1.Norm() && 2 <= Abs(w1.dsize) <= Abs(v1.dsize)
    ensures fresh(a) && fresh(a.digit) && a.Norm() && a.dsize >= 0
    ensures fresh(rem) && fresh(rem.digit) && rem.Norm() && rem.dsize >= 0 && a != rem
    ensures v1.AbsVal() == a.AbsVal() * w1.AbsVal() + rem.AbsVal()
    ensures 0 <= rem.AbsVal() < w1.AbsVal()
  {
    var n := Abs(w1.dsize);
    var d, v, w := Scaled(v1, w1);
    a := new Long(v.dsize - n + 1);
    ghost var V, W := v.AbsVal(), w.AbsVal();
    DivLoop(v.digit, v.dsize, w.digit, n, a.digit);
    ghost var R, q := v.AbsVal(), Val(a.digit[..]);
    assert a.digit[..] == a.Mag();
    a.Normalize();
    var r0;
    rem, r0 := DivRem1(v, d);
    Unscale(v1.AbsVal(), w1.AbsVal(), V, W, d, q, R, rem.Value(), r0);
  }

  /** A normalised number whose value has exactly n digits uses n digits. */
  lemma LengthOf(z: Long, n: nat)
    requires z.Norm() && n > 0 && Pow(n - 1) <= z.AbsVal()
    ensures n <= Abs(z.dsize)
    ensures z.AbsVal() < Pow(n) ==> Abs(z.dsize) == n
  {
    NormBounds(z);
    if Abs(z.dsize) < n { PowMono(Abs(z.dsize), n - 1); }
    if z.AbsVal() < Pow(n) { NormFits(z, n); }
  }

  lemma DivisorPositive(t: digit)
    ensures 32768 / (t as int + 1) >= 1
  {
  }

  lemma SameLength(v1: Long, w1: Long, v: Long, w: Long, d: int)
    requires v1.Norm() && w1.Norm() && 1 <= Abs(w1.dsize) <= Abs(v1.dsize)
    requires d == 32768 / (w1.digit[Abs(w1.dsize) - 1] as int + 1)
    requires v.Norm() && w.Norm() && v.AbsVal() == v1.AbsVal() * d && w.AbsVal() == w1.AbsVal() * d
    ensures Abs(w.dsize) == Abs(w1.dsize) <= Abs(v.dsize)
  {
    ScaledSizes(w1.Mag(), d);
    LengthOf(w, Abs(w1.dsize));
    DivisorPositive(w1.digit[Abs(w1.dsize) - 1]);
    NoShorter(v1, v, d);
  }

  lemma NoShorter(v1: Long, v: Long, d: int)
    requires v1.Norm() && v.Norm() && Abs(v1.dsize) >= 1 && d >= 1 && v.AbsVal() == v1.AbsVal() * d
    ensures Abs(v1.dsize) <= Abs(v.dsize)
  {
    NormBounds(v1);
    MulMono(1, d, v1.AbsVal());
    LengthOf(v, Abs(v1.dsize));
  }

  // ----- signed division -----

  /** q and r are quotient and remainder rounded towards zero. */
  ghost predicate IsTruncated(a: int, b: int, q: int, r: int)
  {
    && a == q * b + r && Abs(r) < Abs(b)
    && (a >= 0 ==> r >= 0) && (a <= 0 ==> r <= 0)
  }

  /** q and m are quotient and remainder rounded towards minus infinity. */
  ghost predicate IsFloored(a: int, b: int, q: int, m: int)
  {
    a == q * b + m && (if b > 0 then 0 <= m < b else b < m <= 0)
  }

  /** Signs of quotient and remainder over the division of absolute values. */
  lemma SignedDivision(A: int, B: int, Q: int, R: int, a: int, b: int)
    requires A == Q * B + R && 0 <= R < B && A >= 0
    requires (a == A || a == -A) && (b == B || b == -B)
    ensures IsTruncated(a, b, if (a < 0) != (b < 0) then -Q else Q, if a < 0 then -R else R)
  {
    if A == 0 {
      if Q >= 1 { MulMono(1, Q, B); } else if Q <= -1 { MulMono(Q, -1, B); }
    }
    assert (-Q) * B == -(Q * B) && (-Q) * (-B) == Q * B && Q * (-B) == -(Q * B);
  }

  /** The unsigned part of long_divrem: which kernel handles which sizes. */
  method DivRemAbs(a: Long, b: Long) returns (z: Long, rem: Long)
    requires a.Norm() && b.Norm() && b.dsize != 0
    requires Abs(a.dsize) > Abs(b.dsize) || (Abs(a.dsize) == Abs(b.dsize) &&
                                             a.digit[Abs(a.dsize) - 1] >= b.digit[Abs(b.dsize) - 1])
    ensures fresh(z) && fresh(z.digit) && z.Norm() && z.dsize >= 0
    ensures fresh(rem) && fresh(rem.digit) && rem.Norm() && rem.dsize >= 0 && rem != z
    ensures a.AbsVal() == z.AbsVal() * b.AbsVal() + rem.AbsVal()
    ensures 0 <= rem.AbsVal() < b.AbsVal()
  {
    if Abs(b.dsize) == 1 {
      var r;
      z, r := DivRem1(a, b.digit[0]);
      rem := NewLong(r);
      ValOne(b.digit[0]);
      assert b.Mag() == [b.digit[0]];
      NormBounds(rem);
    } else {
      z, rem := XDivRem(a, b);
    }
  }

  /** long_divrem: signed division with the remainder taking the dividend's sign.
      Fails exactly on a zero divisor. */
  method LongDivRem(a: Long, b: Long) returns (ok: bool, div: Long?, rem: Long?)
    requires a.Norm() && b.Norm()
    ensures ok <==> b.Value() != 0
    ensures ok ==> div != null && fresh(div) && fresh(div.digit) && div.Norm()
    ensures ok ==> rem != null && fresh(rem) && fresh(rem.digit) && rem.Norm() && rem != div
    ensures ok ==> IsTruncated(a.Value(), b.Value(), div.Value(), rem.Value())
  {
    NormBounds(b);
    if b.dsize == 0 {
      return false, null, null;
    }
    var sizeA, sizeB := Abs(a.dsize), Abs(b.dsize);
    if sizeA < sizeB || (sizeA == sizeB && a.digit[sizeA - 1] < b.digit[sizeB - 1]) {
      SmallerDividend(a, b);
      div := new Long(0);
      rem := CopyLong(a, 0);
      return true, div, rem;
    }
    div, rem := DivRemAbs(a, b);
    SetSigns(a, b, div, rem);
    return true, div, rem;
  }

  /** The sign rules of long_divrem: the quotient gets the sign of a * b, the
      remainder the sign of a. */
  method SetSigns(a: Long, b: Long, z: Long, r: Long)
    requires a.Norm() && b.Norm() && z.Norm() && r.Norm() && {a, b} !! {z, r} && z != r
    requires z.dsize >= 0 && r.dsize >= 0
    requires a.AbsVal() == z.AbsVal() * b.AbsVal() + r.AbsVal() && r.AbsVal() < b.AbsVal()
    modifies z`dsize, r`dsize
    ensures z.Norm() && r.Norm()
    ensures IsTruncated(a.Value(), b.Value(), z.Value(), r.Value())
  {
    SignOf(a);
    SignOf(b);
    NormBounds(r);
    SignedDivision(a.AbsVal(), b.AbsVal(), z.AbsVal(), r.AbsVal(), a.Value(), b.Value());
    ghost var Q, R := z.Value(), r.Value();
    if (a.dsize < 0) != (b.dsize < 0) {
      Negate(z);
    }
    if a.dsize < 0 && r.dsize != 0 {
      Negate(r);
    }
    assert z.Value() == if (a.Value() < 0) != (b.Value() < 0) then -Q else Q;
    assert r.Value() == if a.Value() < 0 then -R else R;
  }

  lemma SmallerDividend(a: Long, b: Long)
    requires a.Norm() && b.Norm() && b.dsize != 0
    requires Abs(a.dsize) < Abs(b.dsize) || (Abs(a.dsize) == Abs(b.dsize) &&
                                             a.digit[Abs(a.dsize) - 1] < b.digit[Abs(b.dsize) - 1])
    ensures a.AbsVal() < b.AbsVal() && IsTruncated(a.Value(), b.Value(), 0, a.Value())
  {
    NormBounds(a);
    if Abs(a.dsize) < Abs(b.dsize) {
      LongerIsLarger(a, b);
    } else {
      DiffOrders(a, b, Abs(a.dsize));
    }
  }

  /** From truncated to floored: shift by one divisor when the signs differ. */
  lemma TruncToFloor(a: int, b: int, q: int, r: int)
    requires b != 0 && IsTruncated(a, b, q, r)
    ensures if (r < 0 && b > 0) || (r > 0 && b < 0) then IsFloored(a, b, q - 1, r + b) else IsFloored(a, b, q, r)
  {
    assert (q - 1) * b == q * b - b;
  }

  /** Floored division determines its results. */
  lemma FlooredUnique(a: int, b: int, q1: int, m1: int, q2: int, m2: int)
    requires b != 0 && IsFloored(a, b, q1, m1) && IsFloored(a, b, q2, m2)
    ensures q1 == q2 && m1 == m2
  {
    var d := q1 - q2;
    assert d * b == m2 - m1;
    MulAway(d, b);
  }

  lemma MulAway(d: int, b: int)
    ensures d != 0 ==> Abs(d * b) >= Abs(b)
  {
    if d >= 1 {
      MulMono(1, d, Abs(b));
    } else if d <= -1 {
      MulMono(d, -1, Abs(b));
    }
  }

  /** l_divmod: floored division for every combination of signs. */
  method LDivMod(v: Long, w: Long) returns (ok: bool, div: Long?, mod: Long?)
    requires v.Norm() && w.Norm()
    ensures ok <==> w.Value() != 0
    ensures ok ==> div != null && fresh(div) && fresh(div.digit) && div.Norm()
    ensures ok ==> mod != null && fresh(mod) && fresh(mod.digit) && mod.Norm() && mod != div
    ensures ok ==> IsFloored(v.Value(), w.Value(), div.Value(), mod.Value())
  {
    ok, div, mod := LongDivRem(v, w);
    if ok {
      div, mod := FloorAdjust(v.Value(), w, div, mod);
    }
  }

  /** The correction step of l_divmod. */
  method FloorAdjust(ghost v: int, w: Long, q: Long, r: Long) returns (div: Long, mod: Long)
    requires w.Norm() && q.Norm() && r.Norm() && q != r && w.Value() != 0
    requires IsTruncated(v, w.Value(), q.Value(), r.Value())
    ensures div == q || (fresh(div) && fresh(div.digit))
    ensures mod == r || (fresh(mod) && fresh(mod.digit))
    ensures div.Norm() && mod.Norm() && div != mod
    ensures IsFloored(v, w.Value(), div.Value(), mod.Value())
  {
    TruncToFloor(v, w.Value(), q.Value(), r.Value());
    SignOf(r);
    SignOf(w);
    div, mod := q, r;
    if (r.dsize < 0 && w.dsize > 0) || (r.dsize > 0 && w.dsize < 0) {
      mod := LongAdd(r, w);
      var one := NewLong(1);
      div := LongSub(q, one);
    }
  }
}
