/** Three-way quicksort of list items: keys equal to the pivot are parked at both
    ends while scanning and brought to the middle afterwards. */
module Quicksort {
  /** Objects compared only by the two comparison calls. */
  type Item = int

  datatype Order = Order(lt: (Item, Item) -> bool, eq: (Item, Item) -> bool) {
    predicate Le(x: Item, y: Item) {
      !lt(y, x)
    }

    /** A total preorder, and the equality that belongs to it. */
    ghost predicate Valid() {
      && (forall x, y :: Le(x, y) || Le(y, x))
      && (forall x, y, z {:trigger Le(x, y), Le(y, z)} :: Le(x, y) && Le(y, z) ==> Le(x, z))
      && (forall x, y :: eq(x, y) <==> Le(x, y) && Le(y, x))
    }
  }

  // ----- sequences -----

  /** Items l to h - 1 rearranged, the others in place. */
  ghost predicate Perm(s: seq<Item>, t: seq<Item>, l: int, h: int) {
    && 0 <= l <= h <= |s| == |t|
    && (forall m :: 0 <= m < |s| && !(l <= m < h) ==> t[m] == s[m])
    && multiset(s) == multiset(t)
  }

  lemma PermTrans(s: seq<Item>, t: seq<Item>, u: seq<Item>, l: int, h: int)
    requires Perm(s, t, l, h) && Perm(t, u, l, h)
    ensures Perm(s, u, l, h)
  {
  }

  /** A rearrangement of a part is one of the whole. */
  lemma PermWiden(s: seq<Item>, t: seq<Item>, l: int, h: int, l': int, h': int)
    requires Perm(s, t, l, h) && 0 <= l' <= l && h <= h' <= |s|
    ensures Perm(s, t, l', h')
  {
  }

  function Swapped(s: seq<Item>, i: int, j: int): seq<Item>
    requires 0 <= i < |s| && 0 <= j < |s|
  {
    s[i := s[j]][j := s[i]]
  }

  lemma SwapPerm(s: seq<Item>, i: int, j: int, l: int, h: int)
    requires 0 <= l <= i < h <= |s| && l <= j < h
    ensures Perm(s, Swapped(s, i, j), l, h)
  {
  }

  /** The part holds the same items. */
  lemma PermSlice(s: seq<Item>, t: seq<Item>, l: int, h: int)
    requires Perm(s, t, l, h)
    ensures multiset(s[l..h]) == multiset(t[l..h])
  {
    var A, B, C, D := s[..l], s[l..h], s[h..], t[l..h];
    assert A == t[..l] && C == t[h..];
    assert s == A + B + C && t == A + D + C;
    Cancel(multiset(A), multiset(B), multiset(C), multiset(D));
  }

  lemma Cancel(a: multiset<Item>, b: multiset<Item>, c: multiset<Item>, d: multiset<Item>)
    requires a + b + c == a + d + c
    ensures b == d
  {
    forall x
      ensures b[x] == d[x]
    {
      assert (a + b + c)[x] == (a + d + c)[x];
    }
  }

  lemma MaybeSwapPerm(s: seq<Item>, t: seq<Item>, i: int, j: int, l: int, h: int)
    requires 0 <= l <= h <= |s| && (t == s || (l <= i < h && l <= j < h && t == Swapped(s, i, j)))
    ensures Perm(s, t, l, h)
  {
    if t != s { SwapPerm(s, i, j, l, h); }
  }

  /** What holds of all items of a part holds after rearranging it. */
  lemma PermAll(s: seq<Item>, t: seq<Item>, l: int, h: int, o: Order, v: Item, below: bool)
    requires Perm(s, t, l, h)
    requires forall m :: l <= m < h ==> if below then o.Le(s[m], v) else o.Le(v, s[m])
    ensures forall m :: l <= m < h ==> if below then o.Le(t[m], v) else o.Le(v, t[m])
  {
    PermSlice(s, t, l, h);
    forall m | l <= m < h
      ensures if below then o.Le(t[m], v) else o.Le(v, t[m])
    {
      assert t[l..h][m - l] == t[m];
      assert t[m] in multiset(t[l..h]);
      assert t[m] in s[l..h];
      var k :| 0 <= k < h - l && s[l..h][k] == t[m];
      assert s[l + k] == t[m];
    }
  }

  ghost predicate Sorted(s: seq<Item>, l: int, h: int, o: Order) {
    0 <= l && h <= |s| && forall i, j :: l <= i < j < h ==> o.Le(s[i], s[j])
  }

  // ----- the scan -----

  /** While scanning: equal keys at both ends, smaller ones up to i, larger ones from
      j on, the pivot last. */
  ghost predicate Scanning(s: seq<Item>, l: int, r: int, p: int, i: int, j: int, q: int, v: Item, o: Order) {
    && 0 <= l < r < |s| && l - 1 <= p <= i < j <= q <= r && l < j && s[r] == v
    && (forall m :: l <= m <= p ==> o.eq(s[m], v))
    && (forall m :: p < m <= i ==> o.lt(s[m], v))
    && (forall m :: j <= m < q ==> o.lt(v, s[m]))
    && (forall m :: q <= m < r ==> o.eq(s[m], v))
  }

  /** When the scans have met: i is where the pivot belongs. */
  ghost predicate Met(s: seq<Item>, l: int, r: int, p: int, i: int, q: int, v: Item, o: Order) {
    && 0 <= l < r < |s| && l - 1 <= p < i <= q <= r && s[r] == v
    && (forall m :: l <= m <= p ==> o.eq(s[m], v))
    && (forall m :: p < m < i ==> o.Le(s[m], v))
    && (forall m :: i <= m < q ==> o.Le(v, s[m]))
    && (forall m :: q <= m < r ==> o.eq(s[m], v))
  }

  method Exch(a: array<Item>, i: int, j: int)
    requires 0 <= i < a.Length && 0 <= j < a.Length
    modifies a
    ensures a[..] == Swapped(old(a[..]), i, j)
  {
    ghost var t := Swapped(a[..], i, j);
    a[i], a[j] := a[j], a[i];
    assert a[..] == t;
  }

  /** Up to the first key not below the pivot; the pivot itself stops the scan. */
  method ScanUp(a: array<Item>, i0: int, stop: int, v: Item, o: Order) returns (i: int)
    requires -1 <= i0 < stop < a.Length && !o.lt(a[stop], v)
    ensures i0 < i <= stop && !o.lt(a[i], v) && forall m :: i0 < m < i ==> o.lt(a[m], v)
  {
    i := i0 + 1;
    while o.lt(a[i], v)
      invariant i0 < i <= stop && forall m :: i0 < m < i ==> o.lt(a[m], v)
      decreases stop - i
    {
      i := i + 1;
    }
  }

  /** Down to the first key not above the pivot, or to l. */
  method ScanDown(a: array<Item>, j0: int, l: int, v: Item, o: Order) returns (j: int)
    requires 0 <= l < j0 <= a.Length
    ensures l <= j < j0 && (!o.lt(v, a[j]) || j == l) && forall m :: j < m < j0 ==> o.lt(v, a[m])
  {
    j := j0 - 1;
    while o.lt(v, a[j])
      invariant l <= j < j0 && forall m :: j < m < j0 ==> o.lt(v, a[m])
      decreases j
    {
      if j == l {
        break;
      }
      j := j - 1;
    }
  }

  lemma OrderFacts(o: Order, x: Item, v: Item)
    requires o.Valid()
    ensures o.Le(v, v)
    ensures o.eq(x, v) ==> o.Le(x, v) && o.Le(v, x)
    ensures o.eq(v, x) <==> o.eq(x, v)
    ensures o.lt(x, v) ==> o.Le(x, v)
    ensures o.lt(v, x) ==> o.Le(v, x)
    ensures o.Le(x, v) && !o.eq(x, v) ==> o.lt(x, v)
    ensures o.Le(v, x) && !o.eq(x, v) ==> o.lt(v, x)
  {
    assert o.Le(v, v) || o.Le(v, v);
    assert o.Le(x, v) || o.Le(v, x);
  }

  method Scan(a: array<Item>, l: int, r: int, v: Item, o: Order) returns (i: int, p: int, q: int)
    requires o.Valid() && 0 <= l < r < a.Length && v == a[r]
    modifies a
    ensures Perm(old(a[..]), a[..], l, r + 1) && Met(a[..], l, r, p, i, q, v, o)
  {
    i, p, q := l - 1, l - 1, r;
    var j := r;
    while true
      invariant Perm(old(a[..]), a[..], l, r + 1) && Scanning(a[..], l, r, p, i, j, q, v, o)
      decreases j - i
    {
      ghost var s := a[..];
      OrderFacts(o, a[q], v);
      var i1 := ScanUp(a, i, q, v, o);
      var j1 := ScanDown(a, j, l, v, o);
      if i1 >= j1 {
        HaveMet(s, l, r, p, i, j, q, i1, j1, v, o);
        i := i1;
        return;
      }
      p, q := Park(a, l, r, p, i, j, q, i1, j1, v, o);
      PermTrans(old(a[..]), s, a[..], l, r + 1);
      i, j := i1, j1;
    }
  }

  lemma HaveMet(s: seq<Item>, l: int, r: int, p: int, i: int, j: int, q: int, i1: int, j1: int, v: Item, o: Order)
    requires o.Valid() && Scanning(s, l, r, p, i, j, q, v, o) && i < i1 <= q && l <= j1 < j && j1 <= i1
    requires o.Le(v, s[i1]) && (forall m :: i < m < i1 ==> o.lt(s[m], v))
    requires forall m :: j1 < m < j ==> o.lt(v, s[m])
    ensures Met(s, l, r, p, i1, q, v, o)
  {
    forall m | p < m < i1
      ensures o.Le(s[m], v)
    {
      OrderFacts(o, s[m], v);
    }
    forall m | i1 <= m < q
      ensures o.Le(v, s[m])
    {
      OrderFacts(o, s[m], v);
    }
  }

  /** Exchange the two keys that stopped the scans, and park those equal to the
      pivot. */
  method Park(a: array<Item>, l: int, r: int, p0: int, ghost i0: int, ghost j0: int, q0: int, i: int, j: int, v: Item, o: Order)
    returns (p: int, q: int)
    requires o.Valid() && r < a.Length && Scanning(a[..], l, r, p0, i0, j0, q0, v, o) && i0 < i < j < j0
    requires o.Le(v, a[i]) && o.Le(a[j], v)
    requires forall m :: i0 < m < i ==> o.lt(a[m], v)
    requires forall m :: j < m < j0 ==> o.lt(v, a[m])
    modifies a
    ensures Perm(old(a[..]), a[..], l, r + 1) && Scanning(a[..], l, r, p, i, j, q, v, o)
  {
    ghost var s0 := a[..];
    p, q := p0, q0;
    Exch(a, i, j);
    ghost var s1 := a[..];
    if o.eq(a[i], v) {
      p := p + 1;
      Exch(a, p, i);
    }
    ghost var s2 := a[..];
    if o.eq(v, a[j]) {
      q := q - 1;
      Exch(a, j, q);
    }
    Parked(s0, s1, s2, a[..], l, r, p0, i0, j0, q0, p, i, j, q, v, o);
  }

  lemma Parked(s0: seq<Item>, s1: seq<Item>, s2: seq<Item>, s3: seq<Item>, l: int, r: int,
               p0: int, i0: int, j0: int, q0: int, p: int, i: int, j: int, q: int, v: Item, o: Order)
    requires o.Valid() && Scanning(s0, l, r, p0, i0, j0, q0, v, o) && i0 < i < j < j0
    requires o.Le(v, s0[i]) && o.Le(s0[j], v)
    requires forall m :: i0 < m < i ==> o.lt(s0[m], v)
    requires forall m :: j < m < j0 ==> o.lt(v, s0[m])
    requires s1 == Swapped(s0, i, j)
    requires p == (if o.eq(s1[i], v) then p0 + 1 else p0) && s2 == if o.eq(s1[i], v) then Swapped(s1, p, i) else s1
    requires q == (if o.eq(v, s2[j]) then q0 - 1 else q0) && s3 == if o.eq(v, s2[j]) then Swapped(s2, j, q) else s2
    ensures Perm(s0, s3, l, r + 1) && Scanning(s3, l, r, p, i, j, q, v, o)
  {
    ParkExchanged(s0, l, r, p0, i0, j0, q0, i, j, v, o);
    ParkLow(s1, l, r, p0, i, j, q0, v, o);
    ParkHigh(s2, l, r, p, i, j, q0, v, o);
    ParkPerm(s0, s1, s2, s3, l, r, p, i, j, q);
  }

  lemma ParkPerm(s0: seq<Item>, s1: seq<Item>, s2: seq<Item>, s3: seq<Item>, l: int, r: int, p: int, i: int, j: int, q: int)
    requires 0 <= l <= i < j <= r < |s0| && s1 == Swapped(s0, i, j)
    requires s2 == s1 || (l <= p <= i && s2 == Swapped(s1, p, i))
    requires s3 == s2 || (j <= q <= r && s3 == Swapped(s2, j, q))
    ensures Perm(s0, s3, l, r + 1)
  {
    SwapPerm(s0, i, j, l, r + 1);
    MaybeSwapPerm(s1, s2, p, i, l, r + 1);
    MaybeSwapPerm(s2, s3, j, q, l, r + 1);
    PermTrans(s0, s1, s2, l, r + 1);
    PermTrans(s0, s2, s3, l, r + 1);
  }

  /** Between the exchange and the parking: keys i and j are on their sides but may
      equal the pivot. */
  ghost predicate Exchanged(s: seq<Item>, l: int, r: int, p: int, i: int, i': int, j: int, j': int, q: int, v: Item, o: Order) {
    && 0 <= l < r < |s| && l - 1 <= p <= i' <= i < j <= j' <= q <= r && l <= i <= i' + 1 && j' <= j + 1 && s[r] == v
    && (forall m :: l <= m <= p ==> o.eq(s[m], v))
    && (forall m :: p < m <= i' ==> o.lt(s[m], v))
    && o.Le(s[i], v) && o.Le(v, s[j])
    && (forall m :: j' <= m < q ==> o.lt(v, s[m]))
    && (forall m :: q <= m < r ==> o.eq(s[m], v))
  }

  lemma ParkExchanged(s: seq<Item>, l: int, r: int, p: int, i0: int, j0: int, q: int, i: int, j: int, v: Item, o: Order)
    requires Scanning(s, l, r, p, i0, j0, q, v, o) && i0 < i < j < j0 && o.Le(v, s[i]) && o.Le(s[j], v)
    requires forall m :: i0 < m < i ==> o.lt(s[m], v)
    requires forall m :: j < m < j0 ==> o.lt(v, s[m])
    ensures Exchanged(Swapped(s, i, j), l, r, p, i, i - 1, j, j + 1, q, v, o)
  {
  }

  lemma ParkLow(s: seq<Item>, l: int, r: int, p: int, i: int, j: int, q: int, v: Item, o: Order)
    requires o.Valid() && Exchanged(s, l, r, p, i, i - 1, j, j + 1, q, v, o)
    ensures p < i
    ensures if o.eq(s[i], v) then Exchanged(Swapped(s, p + 1, i), l, r, p + 1, i, i, j, j + 1, q, v, o)
            else Exchanged(s, l, r, p, i, i, j, j + 1, q, v, o)
  {
    OrderFacts(o, s[i], v);
    OrderFacts(o, s[p + 1], v);
  }

  lemma ParkHigh(s: seq<Item>, l: int, r: int, p: int, i: int, j: int, q: int, v: Item, o: Order)
    requires o.Valid() && Exchanged(s, l, r, p, i, i, j, j + 1, q, v, o)
    ensures j < q
    ensures if o.eq(v, s[j]) then Scanning(Swapped(s, j, q - 1), l, r, p, i, j, q - 1, v, o)
            else Scanning(s, l, r, p, i, j, q, v, o)
  {
    OrderFacts(o, s[j], v);
  }

  // ----- bringing the equal keys to the middle -----

  /** k - l keys have moved from the left end to just below i; key p stays. A key
      moved twice comes back, and then it equals the pivot. */
  ghost predicate FoldingLeft(s: seq<Item>, l: int, p: int, i: int, k: int, j: int, v: Item, o: Order) {
    && 0 <= l && l - 1 <= p < i < |s| && l <= k && (k <= p || k == l) && j == i - 1 - (k - l)
    && (forall m :: k <= m <= p ==> o.eq(s[m], v))
    && (forall m :: j < m < i ==> o.eq(s[m], v))
    && (forall m :: l + i - 1 - p <= m <= p ==> o.eq(s[m], v))
    && (forall m :: l <= m < i ==> o.Le(s[m], v))
  }

  lemma FoldLeftStep(s: seq<Item>, l: int, p: int, i: int, k: int, j: int, v: Item, o: Order)
    requires FoldingLeft(s, l, p, i, k, j, v, o) && k < p
    ensures l <= j < i && FoldingLeft(Swapped(s, k, j), l, p, i, k + 1, j - 1, v, o)
  {
  }

  method FoldLeft(a: array<Item>, l: int, p: int, i: int, v: Item, o: Order) returns (j: int)
    requires i < a.Length && FoldingLeft(a[..], l, p, i, l, i - 1, v, o)
    modifies a
    ensures Perm(old(a[..]), a[..], l, i) && l - 1 <= j < i
    ensures forall m :: l <= m <= j ==> o.Le(a[m], v)
    ensures forall m :: j < m < i ==> o.eq(a[m], v)
  {
    j := i - 1;
    var k := l;
    while k < p
      invariant FoldingLeft(a[..], l, p, i, k, j, v, o) && Perm(old(a[..]), a[..], l, i)
    {
      ghost var s := a[..];
      FoldLeftStep(s, l, p, i, k, j, v, o);
      Exch(a, k, j);
      SwapPerm(s, k, j, l, i);
      PermTrans(old(a[..]), s, a[..], l, i);
      k := k + 1;
      j := j - 1;
    }
  }

  /** The mirror image, for the keys parked at the right end; the key now at r is not
      below the pivot. */
  ghost predicate FoldingRight(s: seq<Item>, i0: int, q: int, r: int, k: int, i: int, v: Item, o: Order) {
    && 0 <= i0 <= q <= r < |s| && k < r && (q <= k || k == r - 1) && i == i0 + 1 + (r - 1 - k)
    && (forall m :: q <= m <= k ==> o.eq(s[m], v))
    && (forall m :: i0 < m < i ==> o.eq(s[m], v))
    && (forall m :: q <= m <= i0 + r - q ==> o.eq(s[m], v))
    && (forall m :: i0 < m <= r ==> o.Le(v, s[m]))
  }

  lemma FoldRightStep(s: seq<Item>, i0: int, q: int, r: int, k: int, i: int, v: Item, o: Order)
    requires FoldingRight(s, i0, q, r, k, i, v, o) && k > q
    ensures i0 < i <= r && FoldingRight(Swapped(s, i, k), i0, q, r, k - 1, i + 1, v, o)
  {
  }

  method FoldRight(a: array<Item>, i0: int, q: int, r: int, v: Item, o: Order) returns (i: int)
    requires r < a.Length && FoldingRight(a[..], i0, q, r, r - 1, i0 + 1, v, o)
    modifies a
    ensures Perm(old(a[..]), a[..], i0 + 1, r + 1) && i0 < i <= r + 1
    ensures forall m :: i0 < m < i ==> o.eq(a[m], v)
    ensures forall m :: i <= m <= r ==> o.Le(v, a[m])
  {
    i := i0 + 1;
    var k := r - 1;
    while k > q
      invariant FoldingRight(a[..], i0, q, r, k, i, v, o) && Perm(old(a[..]), a[..], i0 + 1, r + 1)
    {
      ghost var s := a[..];
      FoldRightStep(s, i0, q, r, k, i, v, o);
      Exch(a, i, k);
      SwapPerm(s, i, k, i0 + 1, r + 1);
      PermTrans(old(a[..]), s, a[..], i0 + 1, r + 1);
      k := k - 1;
      i := i + 1;
    }
  }

  // ----- the sort -----

  /** After partitioning: at most the pivot up to j, equal to it between, at least it
      from i on. */
  ghost predicate Split(s: seq<Item>, l: int, j: int, i: int, r: int, v: Item, o: Order) {
    && 0 <= l && l - 1 <= j && j + 1 < i && i <= r + 1 && r < |s|
    && (forall m :: l <= m <= j ==> o.Le(s[m], v))
    && (forall m :: j < m < i ==> o.eq(s[m], v))
    && (forall m :: i <= m <= r ==> o.Le(v, s[m]))
  }

  method Partition(a: array<Item>, l: int, r: int, o: Order) returns (j: int, i: int, ghost v: Item)
    requires o.Valid() && 0 <= l < r < a.Length
    modifies a
    ensures Perm(old(a[..]), a[..], l, r + 1) && Split(a[..], l, j, i, r, v, o) && v == old(a[r])
  {
    var pivot := a[r];
    v := pivot;
    var mid, p, q := Scan(a, l, r, pivot, o);
    ghost var s := a[..];
    Exch(a, mid, r);
    ghost var t := a[..];
    SwapPerm(s, mid, r, l, r + 1);
    PivotPlaced(s, l, r, p, mid, q, v, o);
    j := FoldLeft(a, l, p, mid, pivot, o);
    ghost var u := a[..];
    RightKept(t, u, l, mid, q, r, v, o);
    i := FoldRight(a, mid, q, r, pivot, o);
    Folded(s, t, u, a[..], l, r, mid, j, i, v, o);
    PermTrans(old(a[..]), s, a[..], l, r + 1);
  }

  /** The pivot exchanged into its place. */
  lemma PivotPlaced(s: seq<Item>, l: int, r: int, p: int, i: int, q: int, v: Item, o: Order)
    requires o.Valid() && Met(s, l, r, p, i, q, v, o)
    ensures FoldingLeft(Swapped(s, i, r), l, p, i, l, i - 1, v, o)
    ensures FoldingRight(Swapped(s, i, r), i, q, r, r - 1, i + 1, v, o)
  {
    var t := Swapped(s, i, r);
    OrderFacts(o, v, v);
    forall m | 0 <= m < |s|
      ensures o.eq(s[m], v) ==> o.Le(s[m], v) && o.Le(v, s[m])
    {
      OrderFacts(o, s[m], v);
    }
    assert o.eq(v, v) by { OrderFacts(o, v, v); }
    assert t[i] == v && t[r] == s[i] && forall m :: 0 <= m < |s| && m != i && m != r ==> t[m] == s[m];
  }

  /** Folding on the left leaves the right as it is. */
  lemma RightKept(t: seq<Item>, u: seq<Item>, l: int, i: int, q: int, r: int, v: Item, o: Order)
    requires Perm(t, u, l, i) && FoldingRight(t, i, q, r, r - 1, i + 1, v, o)
    ensures FoldingRight(u, i, q, r, r - 1, i + 1, v, o)
  {
  }

  lemma Folded(s: seq<Item>, t: seq<Item>, u: seq<Item>, w: seq<Item>, l: int, r: int, mid: int, j: int, i: int, v: Item, o: Order)
    requires 0 <= l <= mid <= r < |s| && t == Swapped(s, mid, r) && t[mid] == v && o.eq(v, v)
    requires Perm(s, t, l, r + 1) && Perm(t, u, l, mid) && Perm(u, w, mid + 1, r + 1)
    requires l - 1 <= j < mid < i <= r + 1
    requires forall m :: l <= m <= j ==> o.Le(u[m], v)
    requires forall m :: j < m < mid ==> o.eq(u[m], v)
    requires forall m :: mid < m < i ==> o.eq(w[m], v)
    requires forall m :: i <= m <= r ==> o.Le(v, w[m])
    ensures Perm(s, w, l, r + 1) && Split(w, l, j, i, r, v, o)
  {
    PermWiden(t, u, l, mid, l, r + 1);
    PermWiden(u, w, mid + 1, r + 1, l, r + 1);
    PermTrans(s, t, u, l, r + 1);
    PermTrans(s, u, w, l, r + 1);
  }

  /** The last item is below all others. */
  ghost predicate LeastLast(s: seq<Item>, r: int, o: Order)
    requires r < |s|
  {
    0 < r && forall m :: 0 <= m < r ==> o.lt(s[r], s[m])
  }

  /** Then the part to the left of it is empty. */
  lemma NothingLeft(s: seq<Item>, t: seq<Item>, j: int, i: int, r: int, o: Order)
    requires o.Valid() && 0 < r < |s| && LeastLast(s, r, o) && Perm(s, t, 0, r + 1) && Split(t, 0, j, i, r, s[r], o)
    ensures j == -1
  {
    if j >= 0 {
      PermSlice(s, t, 0, r + 1);
      var B := t[0..r + 1];
      OnlyLeast(s, r, t[0], B, 0, o);
      OnlyLeast(s, r, t[j + 1], B, j + 1, o);
      CountTwo(B, s[r], j + 1);
      CountOne(s, r, o);
    }
  }

  lemma CountOne(s: seq<Item>, r: int, o: Order)
    requires o.Valid() && 0 < r < |s| && LeastLast(s, r, o)
    ensures multiset(s[0..r + 1])[s[r]] == 1
  {
    assert o.Le(s[r], s[r]);
    assert s[r] !in s[..r] && s[0..r + 1] == s[..r] + [s[r]];
  }

  lemma CountTwo(B: seq<Item>, v: Item, m: int)
    requires 0 < m < |B| && B[0] == B[m] == v
    ensures multiset(B)[v] > 1
  {
    assert B == [v] + B[1..] && B[1..][m - 1] == v;
    assert v in multiset(B[1..]);
  }

  /** Of the items of s up to r only the last is at most the last. */
  lemma OnlyLeast(s: seq<Item>, r: int, x: Item, B: seq<Item>, m: int, o: Order)
    requires o.Valid() && 0 < r < |s| && LeastLast(s, r, o) && multiset(s[0..r + 1]) == multiset(B)
    requires 0 <= m < |B| && B[m] == x && (o.Le(x, s[r]) || o.eq(x, s[r]))
    ensures x == s[r]
  {
    assert x in multiset(B) && x in s[0..r + 1];
    var k :| 0 <= k < |s[0..r + 1]| && s[0..r + 1][k] == x;
    assert s[k] == x;
  }

  /** Sort items l to r in place. The C routine reads a[r] before it looks at l and
      r: `outside` says that some call in the recursion does so with r == -1, in
      front of the array. */
  method QuickSort(a: array<Item>, l: int, r: int, o: Order) returns (ghost outside: bool)
    requires o.Valid() && 0 <= l <= r + 1 <= a.Length
    modifies a
    ensures Perm(old(a[..]), a[..], l, r + 1) && Sorted(a[..], l, r + 1, o)
    ensures l > 0 || r == 0 ==> !outside
    ensures r < 0 || (l == 0 && LeastLast(old(a[..]), r, o)) ==> outside
    decreases r - l + 1
  {
    outside := r < 0;
    if r <= l {
      return;
    }
    ghost var s := a[..];
    var j, i; ghost var v;
    j, i, v := Partition(a, l, r, o);
    ghost var t := a[..];
    if l == 0 && LeastLast(s, r, o) { NothingLeft(s, t, j, i, r, o); }
    outside := QuickSort(a, l, j, o);
    ghost var u := a[..];
    ghost var right := QuickSort(a, i, r, o);
    Joined(s, t, u, a[..], l, j, i, r, v, o);
  }

  /** The parts sorted, the whole is. */
  lemma Joined(s: seq<Item>, t: seq<Item>, u: seq<Item>, w: seq<Item>, l: int, j: int, i: int, r: int, v: Item, o: Order)
    requires o.Valid() && Split(t, l, j, i, r, v, o) && l <= r
    requires Perm(s, t, l, r + 1) && Perm(t, u, l, j + 1) && Perm(u, w, i, r + 1)
    requires Sorted(u, l, j + 1, o) && Sorted(w, i, r + 1, o)
    ensures Perm(s, w, l, r + 1) && Sorted(w, l, r + 1, o)
  {
    PermAll(t, u, l, j + 1, o, v, true);
    PermAll(u, w, i, r + 1, o, v, false);
    PermWiden(t, u, l, j + 1, l, r + 1);
    PermWiden(u, w, i, r + 1, l, r + 1);
    PermTrans(s, t, u, l, r + 1);
    PermTrans(s, u, w, l, r + 1);
    forall m | l <= m <= r
      ensures m < i ==> o.Le(w[m], v)
      ensures m > j ==> o.Le(v, w[m])
    {
      OrderFacts(o, w[m], v);
    }
    forall x, y | l <= x < y < r + 1
      ensures o.Le(w[x], w[y])
    {
      if y <= j {
        assert w[x] == u[x] && w[y] == u[y];
      } else if x < i {
        assert o.Le(w[x], v) && o.Le(v, w[y]);
      }
    }
  }
}
