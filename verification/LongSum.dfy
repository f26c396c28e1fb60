/** Carry and borrow loops, and signed addition and subtraction. */
module LongSum {
  import opened Digits
  import opened LongCore

  /** The 16-bit C type of a digit variable: room for a digit sum plus carry. */
  type u16 = x: int | 0 <= x < 65536

  /** State of a carry loop over the window of `now` that starts at lo: i columns
      are done, they hold the columns of `was` plus y, up to the carry c (a
      borrow is a negative carry); nothing else has changed. */
  ghost predicate Columns(now: seq<digit>, was: seq<digit>, lo: nat, i: nat, y: int, c: int)
  {
    && |now| == |was| && lo + i <= |was|
    && now[..lo] == was[..lo] && now[lo + i..] == was[lo + i..]
    && Val(now[lo..lo + i]) + Scale(c, i) == Val(was[lo..lo + i]) + y
  }

  lemma ColumnsStart(was: seq<digit>, lo: nat)
    requires lo <= |was|
    ensures Columns(was, was, lo, 0, 0, 0)
  {
  }

  /** Writing one digit grows both windows by one and keeps the rest. */
  lemma WindowGrows(now: seq<digit>, was: seq<digit>, lo: nat, i: nat, d: digit)
    requires |now| == |was| && lo + i < |was|
    requires now[..lo] == was[..lo] && now[lo + i..] == was[lo + i..]
    ensures now[lo + i] == was[lo + i]
    ensures var next := now[lo + i := d];
            && next[lo..lo + i + 1] == now[lo..lo + i] + [d]
            && was[lo..lo + i + 1] == was[lo..lo + i] + [was[lo + i]]
            && next[..lo] == was[..lo] && next[lo + i + 1..] == was[lo + i + 1..]
  {
    assert now[lo + i..][0] == was[lo + i..][0];
    assert now[lo + i + 1..] == now[lo + i..][1..];
    assert was[lo + i + 1..] == was[lo + i..][1..];
  }

  lemma ColumnSum(low: seq<digit>, old_: seq<digit>, y: int, c: int, a: digit, b: int, d: digit, c': int)
    requires |low| == |old_| && Val(low) + Scale(c, |low|) == Val(old_) + y
    requires d + 32768 * c' == c + a + b
    ensures Val(low + [d]) + Scale(c', |low| + 1) == Val(old_ + [a]) + (y + Scale(b, |low|))
  {
    var i := |low|;
    ValSnoc(low, d);
    ValSnoc(old_, a);
    Carry(i, d, c', c + a + b);
    ScaleAdd(c + a, b, i);
    ScaleAdd(c, a, i);
  }

  /** One column: digit d and carry c' replace carry c plus the column sum. */
  lemma ColumnsStep(now: seq<digit>, was: seq<digit>, lo: nat, i: nat, y: int, c: int,
                    b: int, d: digit, c': int)
    requires Columns(now, was, lo, i, y, c) && lo + i < |was|
    requires d + 32768 * c' == c + now[lo + i] + b
    ensures Columns(now[lo + i := d], was, lo, i + 1, y + Scale(b, i), c')
  {
    WindowGrows(now, was, lo, i, d);
    ColumnSum(now[lo..lo + i], was[lo..lo + i], y, c, was[lo + i], b, d, c');
  }

  /** The loop may stop as soon as the carry is gone, or at the window's end. */
  lemma ColumnsEnd(now: seq<digit>, was: seq<digit>, lo: nat, i: nat, y: int, c: int, m: nat)
    requires Columns(now, was, lo, i, y, c) && i <= m && lo + m <= |was|
    requires i == m || c == 0
    ensures Columns(now, was, lo, m, y, c)
  {
    var a, b := now[lo..lo + m], was[lo..lo + m];
    assert a[..i] == now[lo..lo + i] && b[..i] == was[lo..lo + i];
    assert a[i..] == now[lo + i..][..m - i] && b[i..] == was[lo + i..][..m - i];
    assert now[lo + m..] == now[lo + i..][m - i..];
    assert was[lo + m..] == was[lo + i..][m - i..];
    ValSplit(a, i);
    ValSplit(b, i);
    ScaleZero(i);
    ScaleZero(m);
  }

  /** v_iadd: add y[..n] into the m digits of x from lo on; the final carry is
      returned. The digits of x outside the window are not touched. */
  method VIAdd(x: array<digit>, lo: nat, m: nat, y: array<digit>, n: nat) returns (carry: u16)
    requires n <= m && lo + m <= x.Length && n <= y.Length && x != y
    modifies x
    ensures carry <= 1
    ensures Columns(x[..], old(x[..]), lo, m, Val(y[..n]), carry)
  {
    ghost var was, added := x[..], y[..n];
    carry := 0;
    var i := 0;
    ColumnsStart(was, lo);
    while i < n
      invariant 0 <= i <= n && carry <= 1
      invariant Columns(x[..], was, lo, i, Val(added[..i]), carry)
    {
      ghost var now := x[..];
      ghost var c := carry;
      carry := carry + x[lo + i] + y[i];
      ColumnsStep(now, was, lo, i, Val(added[..i]), c, added[i], carry % 32768, carry / 32768);
      ValPrefix(added, i);
      var d: digit := carry % 32768;
      x[lo + i] := d;
      assert x[..] == now[lo + i := d];
      carry := carry / 32768;
      i := i + 1;
    }
    assert added[..n] == added;
    carry, i := CarryOn(x, was, lo, m, i, Val(added), carry);
    ColumnsEnd(x[..], was, lo, i, Val(added), carry, m);
  }

  /** The second loop of v_iadd: ripple a carry upwards. */
  method CarryOn(x: array<digit>, ghost was: seq<digit>, lo: nat, m: nat, start: nat, ghost y: int, carryIn: u16)
    returns (carry: u16, i: nat)
    requires start <= m && lo + m <= x.Length && carryIn <= 1
    requires Columns(x[..], was, lo, start, y, carryIn)
    modifies x
    ensures carry <= 1 && i <= m && (i == m || carry == 0)
    ensures Columns(x[..], was, lo, i, y, carry)
  {
    carry, i := carryIn, start;
    while carry != 0 && i < m
      invariant start <= i <= m && carry <= 1
      invariant Columns(x[..], was, lo, i, y, carry)
    {
      ghost var now := x[..];
      ghost var c := carry;
      carry := carry + x[lo + i];
      ColumnsStep(now, was, lo, i, y, c, 0, carry % 32768, carry / 32768);
      ScaleZero(i);
      var d: digit := carry % 32768;
      x[lo + i] := d;
      assert x[..] == now[lo + i := d];
      carry := carry / 32768;
      i := i + 1;
    }
  }

  function Neg(x: int): int { -x }

  /** 16-bit subtraction wraps; the bit above the digit is the borrow. */
  function Wrap16(x: int): u16 { x % 65536 }

  lemma BorrowBits(a: digit, b: digit, c: int)
    requires 0 <= c <= 1
    ensures var w := Wrap16(a - b - c);
            var c' := w / 32768 % 2;
            0 <= c' <= 1 && w % 32768 - 32768 * c' == a - b - c
  {
  }

  lemma ScaleNeg(x: int, i: nat)
    ensures Scale(Neg(x), i) == Neg(Scale(x, i))
  {
    ScaleAdd(x, -x, i);
    ScaleZero(i);
  }

  /** v_isub: subtract y[..n] from the m digits of x from lo on; the final
      borrow is returned. */
  method VISub(x: array<digit>, lo: nat, m: nat, y: array<digit>, n: nat) returns (borrow: u16)
    requires n <= m && lo + m <= x.Length && n <= y.Length && x != y
    modifies x
    ensures borrow <= 1
    ensures Columns(x[..], old(x[..]), lo, m, Neg(Val(y[..n])), Neg(borrow))
  {
    ghost var was, taken := x[..], y[..n];
    borrow := 0;
    var i := 0;
    ColumnsStart(was, lo);
    while i < n
      invariant 0 <= i <= n && borrow <= 1
      invariant Columns(x[..], was, lo, i, Neg(Val(taken[..i])), Neg(borrow))
    {
      ghost var now := x[..];
      ghost var c := borrow;
      BorrowBits(x[lo + i], y[i], borrow);
      borrow := Wrap16(x[lo + i] as int - y[i] - borrow);
      var d: digit := borrow % 32768;
      borrow := borrow / 32768 % 2;
      ColumnsStep(now, was, lo, i, Neg(Val(taken[..i])), Neg(c), Neg(taken[i]), d, Neg(borrow));
      ScaleNeg(taken[i], i);
      ValPrefix(taken, i);
      x[lo + i] := d;
      assert x[..] == now[lo + i := d];
      i := i + 1;
    }
    assert taken[..n] == taken;
    borrow, i := BorrowOn(x, was, lo, m, i, Neg(Val(taken)), borrow);
    ColumnsEnd(x[..], was, lo, i, Neg(Val(taken)), Neg(borrow), m);
  }

  /** The second loop of v_isub: ripple a borrow upwards. */
  method BorrowOn(x: array<digit>, ghost was: seq<digit>, lo: nat, m: nat, start: nat, ghost y: int, borrowIn: u16)
    returns (borrow: u16, i: nat)
    requires start <= m && lo + m <= x.Length && borrowIn <= 1
    requires Columns(x[..], was, lo, start, y, Neg(borrowIn))
    modifies x
    ensures borrow <= 1 && i <= m && (i == m || borrow == 0)
    ensures Columns(x[..], was, lo, i, y, Neg(borrow))
  {
    borrow, i := borrowIn, start;
    while borrow != 0 && i < m
      invariant start <= i <= m && borrow <= 1
      invariant Columns(x[..], was, lo, i, y, Neg(borrow))
    {
      ghost var now := x[..];
      ghost var c := borrow;
      BorrowBits(x[lo + i], 0, borrow);
      borrow := Wrap16(x[lo + i] as int - borrow);
      var d: digit := borrow % 32768;
      borrow := borrow / 32768 % 2;
      ColumnsStep(now, was, lo, i, y, Neg(c), 0, d, Neg(borrow));
      ScaleZero(i);
      x[lo + i] := d;
      assert x[..] == now[lo + i := d];
      i := i + 1;
    }
  }

  // ----- x_add, x_sub -----

  /** State of a copying carry loop: the first i digits of z hold those of x plus
      t, up to the carry c into place i. */
  ghost predicate Summed(z: seq<digit>, x: seq<digit>, i: nat, t: int, c: int)
  {
    i <= |z| && i <= |x| && Val(z[..i]) + Scale(c, i) == Val(x[..i]) + t
  }

  lemma SummedStep(z: seq<digit>, x: seq<digit>, i: nat, t: int, c: int, b: int, d: digit, c': int)
    requires i < |z| && i < |x| && Summed(z, x, i, t, c)
    requires d + 32768 * c' == c + x[i] + b
    ensures Summed(z[i := d], x, i + 1, t + Scale(b, i), c')
  {
    assert z[i := d][..i + 1] == z[..i] + [d];
    assert x[..i + 1] == x[..i] + [x[i]];
    ColumnSum(z[..i], x[..i], t, c, x[i], b, d, c');
  }

  /** The addition loops of x_add; `carry` belongs on top of the sizeX digits. */
  method AddDigits(z: array<digit>, x: array<digit>, sizeX: nat, y: array<digit>, sizeY: nat) returns (carry: u16)
    requires sizeY <= sizeX <= x.Length && sizeY <= y.Length && sizeX <= z.Length && z != x && z != y
    modifies z
    ensures carry <= 1
    ensures Summed(z[..], x[..], sizeX, Val(y[..sizeY]), carry)
  {
    ghost var xs, ys := x[..], y[..sizeY];
    carry := 0;
    var i := 0;
    ScaleZero(0);
    while i < sizeY
      invariant 0 <= i <= sizeY && carry <= 1
      invariant Summed(z[..], xs, i, Val(ys[..i]), carry)
    {
      ghost var now, c := z[..], carry;
      carry := carry + x[i] + y[i];
      var d: digit := carry % 32768;
      carry := carry / 32768;
      SummedStep(now, xs, i, Val(ys[..i]), c, ys[i], d, carry);
      ValPrefix(ys, i);
      z[i] := d;
      assert z[..] == now[i := d];
      i := i + 1;
    }
    assert ys[..sizeY] == ys;
    while i < sizeX
      invariant sizeY <= i <= sizeX && carry <= 1
      invariant Summed(z[..], xs, i, Val(ys), carry)
    {
      ghost var now, c := z[..], carry;
      carry := carry + x[i];
      var d: digit := carry % 32768;
      carry := carry / 32768;
      SummedStep(now, xs, i, Val(ys), c, 0, d, carry);
      ScaleZero(i);
      z[i] := d;
      assert z[..] == now[i := d];
      i := i + 1;
    }
  }

  /** x_add: sum of absolute values. */
  method XAdd(a: Long, b: Long) returns (z: Long)
    requires a.Valid() && b.Valid()
    ensures fresh(z) && fresh(z.digit) && z.Norm() && z.dsize >= 0
    ensures z.Value() == a.AbsVal() + b.AbsVal()
    ensures z.dsize <= Max(Abs(a.dsize), Abs(b.dsize)) + 1
  {
    var x, y := a, b;
    if Abs(a.dsize) < Abs(b.dsize) {
      x, y := b, a;
    }
    var sizeX, sizeY := Abs(x.dsize), Abs(y.dsize);
    z := new Long(sizeX + 1);
    var carry := AddDigits(z.digit, x.digit, sizeX, y.digit, sizeY);
    ghost var low := z.digit[..sizeX];
    assert z.digit[..][..sizeX] == low && x.digit[..][..sizeX] == x.Mag();
    z.digit[sizeX] := carry;
    ValSnoc(low, carry);
    assert z.Mag() == low + [z.digit[sizeX]];
    z.Normalize();
  }

  /** Index of the highest differing digit, or -1. */
  method HighestDiff(a: Long, b: Long) returns (i: int)
    requires a.Valid() && b.Valid() && Abs(a.dsize) == Abs(b.dsize)
    ensures -1 <= i < Abs(a.dsize)
    ensures a.Mag()[i + 1..] == b.Mag()[i + 1..]
    ensures i >= 0 ==> a.digit[i] != b.digit[i]
  {
    i := Abs(a.dsize) - 1;
    while i >= 0 && a.digit[i] == b.digit[i]
      invariant -1 <= i < Abs(a.dsize)
      invariant forall m :: i < m < Abs(a.dsize) ==> a.Mag()[m] == b.Mag()[m]
    {
      i := i - 1;
    }
    SameTail(a.Mag(), b.Mag(), i + 1);
  }

  lemma SameTail(a: seq<digit>, b: seq<digit>, i: nat)
    requires |a| == |b| && i <= |a| && forall m :: i <= m < |a| ==> a[m] == b[m]
    ensures a[i..] == b[i..]
  {
  }

  /** The highest differing digit decides the order. */
  lemma DiffDecides(a: seq<digit>, b: seq<digit>, i: int)
    requires |a| == |b| && -1 <= i < |a| && a[i + 1..] == b[i + 1..]
    requires i >= 0 ==> a[i] < b[i]
    ensures Val(a) - Val(b) == Val(a[..i + 1]) - Val(b[..i + 1])
    ensures if i >= 0 then Val(a) < Val(b) else Val(a) == Val(b)
  {
    ValSplit(a, i + 1);
    ValSplit(b, i + 1);
    if i >= 0 {
      ValPrefix(a, i);
      ValPrefix(b, i);
      ValBound(a[..i]);
      ValBound(b[..i]);
      ScaleMono(a[i], b[i], i);
    }
  }

  /** The subtraction loops of x_sub. */
  method SubDigits(z: array<digit>, x: array<digit>, sizeX: nat, y: array<digit>, sizeY: nat) returns (borrow: u16)
    requires sizeY <= sizeX <= x.Length && sizeY <= y.Length && sizeX <= z.Length && z != x && z != y
    modifies z
    ensures borrow <= 1
    ensures Summed(z[..], x[..], sizeX, Neg(Val(y[..sizeY])), Neg(borrow))
  {
    borrow := SubBoth(z, x, y, sizeY);
    borrow := SubBorrow(z, x, sizeX, sizeY, borrow, Val(y[..sizeY]));
  }

  /** The digits that both operands have. */
  method SubBoth(z: array<digit>, x: array<digit>, y: array<digit>, sizeY: nat) returns (borrow: u16)
    requires sizeY <= x.Length && sizeY <= y.Length && sizeY <= z.Length && z != x && z != y
    modifies z
    ensures borrow <= 1
    ensures Summed(z[..], x[..], sizeY, Neg(Val(y[..sizeY])), Neg(borrow))
  {
    ghost var xs, ys := x[..], y[..sizeY];
    borrow := 0;
    var i := 0;
    ScaleZero(0);
    while i < sizeY
      invariant 0 <= i <= sizeY && borrow <= 1
      invariant Summed(z[..], xs, i, Neg(Val(ys[..i])), Neg(borrow))
    {
      ghost var now, c := z[..], borrow;
      BorrowBits(x[i], y[i], borrow);
      borrow := Wrap16(x[i] as int - y[i] - borrow);
      var d: digit := borrow % 32768;
      borrow := borrow / 32768 % 2;
      SummedStep(now, xs, i, Neg(Val(ys[..i])), Neg(c), Neg(ys[i]), d, Neg(borrow));
      ScaleNeg(ys[i], i);
      ValPrefix(ys, i);
      z[i] := d;
      assert z[..] == now[i := d];
      i := i + 1;
    }
    assert ys[..sizeY] == ys;
  }

  /** The rest of the longer operand, less the borrow; Y is what has been taken off. */
  method SubBorrow(z: array<digit>, x: array<digit>, sizeX: nat, from: nat, borrow0: u16, ghost Y: int) returns (borrow: u16)
    requires from <= sizeX <= x.Length && sizeX <= z.Length && z != x && borrow0 <= 1
    requires Summed(z[..], x[..], from, Neg(Y), Neg(borrow0))
    modifies z
    ensures borrow <= 1
    ensures Summed(z[..], x[..], sizeX, Neg(Y), Neg(borrow))
  {
    ghost var xs := x[..];
    borrow := borrow0;
    var i := from;
    while i < sizeX
      invariant from <= i <= sizeX && borrow <= 1
      invariant Summed(z[..], xs, i, Neg(Y), Neg(borrow))
    {
      ghost var now, c := z[..], borrow;
      BorrowBits(x[i], 0, borrow);
      borrow := Wrap16(x[i] as int - borrow);
      var d: digit := borrow % 32768;
      borrow := borrow / 32768 % 2;
      SummedStep(now, xs, i, Neg(Y), Neg(c), 0, d, Neg(borrow));
      ScaleZero(i);
      z[i] := d;
      assert z[..] == now[i := d];
      i := i + 1;
    }
  }

  /** A difference that is not negative leaves no borrow. */
  lemma NoBorrow(z: seq<digit>, x: seq<digit>, n: nat, t: int, c: int)
    requires Summed(z, x, n, t, Neg(c)) && 0 <= c
    requires Val(x[..n]) + t >= 0
    ensures c == 0 && Val(z[..n]) == Val(x[..n]) + t
  {
    ValBound(z[..n]);
    ScaleSign(Neg(c), n);
    ScaleZero(n);
  }

  lemma DiffOrders(a: Long, b: Long, n: nat)
    requires a.Valid() && b.Valid() && Abs(a.dsize) == Abs(b.dsize)
    requires n <= Abs(a.dsize) && a.Mag()[n..] == b.Mag()[n..]
    requires n > 0 ==> a.digit[n - 1] < b.digit[n - 1]
    ensures a.AbsVal() <= b.AbsVal() && (n > 0 ==> a.AbsVal() < b.AbsVal())
    ensures Val(a.digit[..n]) <= Val(b.digit[..n])
    ensures a.AbsVal() - b.AbsVal() == Val(a.digit[..n]) - Val(b.digit[..n])
    ensures b.AbsVal() - a.AbsVal() == Val(b.digit[..n]) - Val(a.digit[..n])
  {
    DiffDecides(a.Mag(), b.Mag(), n - 1);
    assert a.Mag()[..n] == a.digit[..n] && b.Mag()[..n] == b.digit[..n];
  }

  /** More digits means a larger absolute value. */
  lemma LongerIsLarger(a: Long, b: Long)
    requires a.Norm() && b.Norm() && Abs(a.dsize) < Abs(b.dsize)
    ensures a.AbsVal() < b.AbsVal()
  {
    NormBounds(a);
    NormBounds(b);
    PowMono(Abs(a.dsize), Abs(b.dsize) - 1);
  }

  /** How x_sub orders operands of equal size: the larger first, and only the
      digits up to the highest difference are subtracted. */
  method OrderEqual(a: Long, b: Long) returns (x: Long, y: Long, size: nat)
    requires a.Valid() && b.Valid() && Abs(a.dsize) == Abs(b.dsize)
    ensures (x == a && y == b) || (x == b && y == a && a != b)
    ensures size <= Abs(a.dsize)
    ensures Val(x.digit[..size]) >= Val(y.digit[..size])
    ensures Val(x.digit[..size]) - Val(y.digit[..size]) == x.AbsVal() - y.AbsVal()
  {
    var i := HighestDiff(a, b);
    size := i + 1;
    if i >= 0 && a.digit[i] < b.digit[i] {
      x, y := b, a;
    } else {
      x, y := a, b;
    }
    DiffOrders(y, x, size);
  }

  /** How x_sub orders its operands: the minuend first. */
  method OrderOperands(a: Long, b: Long) returns (x: Long, sizeX: nat, y: Long, sizeY: nat, sign: int)
    requires a.Norm() && b.Norm()
    ensures sizeY <= sizeX <= x.digit.Length && sizeY <= y.digit.Length
    ensures (x == a && y == b && sign == 1) || (x == b && y == a && sign == -1)
    ensures Val(x.digit[..sizeX]) >= Val(y.digit[..sizeY])
    ensures Val(x.digit[..sizeX]) - Val(y.digit[..sizeY]) == x.AbsVal() - y.AbsVal()
  {
    if Abs(a.dsize) < Abs(b.dsize) {
      LongerIsLarger(a, b);
      x, sizeX, y, sizeY, sign := b, Abs(b.dsize), a, Abs(a.dsize), -1;
    } else if Abs(a.dsize) == Abs(b.dsize) {
      x, y, sizeX := OrderEqual(a, b);
      sizeY := sizeX;
      sign := if x == a then 1 else -1;
    } else {
      LongerIsLarger(b, a);
      x, sizeX, y, sizeY, sign := a, Abs(a.dsize), b, Abs(b.dsize), 1;
    }
  }

  /** x_sub: difference of absolute values, with its sign. */
  method XSub(a: Long, b: Long) returns (z: Long)
    requires a.Norm() && b.Norm()
    ensures fresh(z) && fresh(z.digit) && z.Norm()
    ensures z.Value() == a.AbsVal() - b.AbsVal()
  {
    var x, sizeX, y, sizeY, sign := OrderOperands(a, b);
    z := new Long(sizeX);
    var borrow := SubDigits(z.digit, x.digit, sizeX, y.digit, sizeY);
    assert x.digit[..][..sizeX] == x.digit[..sizeX] && z.digit[..][..sizeX] == z.Mag();
    NoBorrow(z.digit[..], x.digit[..], sizeX, Neg(Val(y.digit[..sizeY])), borrow);
    assert borrow == 0;
    if sign < 0 {
      z.dsize := -z.dsize;
    }
    z.Normalize();
  }

  // ----- signed addition and subtraction -----

  method Negate(z: Long)
    requires z.Norm()
    modifies z`dsize
    ensures z.Norm() && z.Value() == -old(z.Value()) && z.dsize == -old(z.dsize)
  {
    if z.dsize == 0 {
      NormBounds(z);
    }
    z.dsize := -z.dsize;
  }

  method LongAdd(a: Long, b: Long) returns (z: Long)
    requires a.Norm() && b.Norm()
    ensures fresh(z) && fresh(z.digit) && z.Norm()
    ensures z.Value() == a.Value() + b.Value()
  {
    if a.dsize < 0 {
      if b.dsize < 0 {
        z := XAdd(a, b);
        Negate(z);
      } else {
        z := XSub(b, a);
      }
    } else {
      if b.dsize < 0 {
        z := XSub(a, b);
      } else {
        z := XAdd(a, b);
      }
    }
  }

  method LongSub(a: Long, b: Long) returns (z: Long)
    requires a.Norm() && b.Norm()
    ensures fresh(z) && fresh(z.digit) && z.Norm()
    ensures z.Value() == a.Value() - b.Value()
  {
    if a.dsize < 0 {
      if b.dsize < 0 {
        z := XSub(a, b);
      } else {
        z := XAdd(a, b);
      }
      Negate(z);
    } else {
      if b.dsize < 0 {
        z := XAdd(a, b);
      } else {
        z := XSub(a, b);
      }
    }
  }

  /** ~x computed as -(x + 1). */
  method LongInvert(v: Long) returns (x: Long)
    requires v.Norm()
    ensures fresh(x) && fresh(x.digit) && x.Norm()
    ensures x.Value() == -(v.Value() + 1)
  {
    var one := NewLong(1);
    x := LongAdd(v, one);
    Negate(x);
  }

  /** Signed sizes that differ order the numbers the same way. */
  lemma SizesDecide(a: Long, b: Long)
    requires a.Norm() && b.Norm() && a.dsize != b.dsize
    ensures a.Value() < b.Value() <==> a.dsize < b.dsize
    ensures a.Value() != b.Value()
  {
    NormBounds(a);
    NormBounds(b);
    if Abs(a.dsize) < Abs(b.dsize) { LongerIsLarger(a, b); }
    if Abs(b.dsize) < Abs(a.dsize) { LongerIsLarger(b, a); }
  }

  /** long_compare agrees with the order of the integers. */
  method LongCompare(a: Long, b: Long) returns (c: int)
    requires a.Norm() && b.Norm()
    ensures c == if a.Value() < b.Value() then -1 else if a.Value() > b.Value() then 1 else 0
  {
    var sign: int;
    if a.dsize != b.dsize {
      SizesDecide(a, b);
      sign := a.dsize - b.dsize;
    } else {
      var i := HighestDiff(a, b);
      if i < 0 {
        DiffOrders(a, b, i + 1);
        DiffOrders(b, a, i + 1);
        sign := 0;
      } else {
        if a.digit[i] < b.digit[i] {
          DiffOrders(a, b, i + 1);
        } else {
          DiffOrders(b, a, i + 1);
        }
        sign := a.digit[i] as int - b.digit[i];
        if a.dsize < 0 {
          sign := -sign;
        }
      }
    }
    c := if sign < 0 then -1 else if sign > 0 then 1 else 0;
  }
}
