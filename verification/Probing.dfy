/** Cyclic probing of an open-addressing table: keys are positive, 0 is an empty
    slot, DELETED a slot whose entry was removed. */
module Probing {
  import opened Sets

  const DELETED: int := -1

  /** Slot after d steps from the home slot of key k. */
  function At(k: nat, d: nat, n: nat): (r: nat)
    requires d < n
    ensures r < n
  {
    var s := k % n + d;
    if s < n then s else s - n
  }

  /** The index the probe loops use. */
  lemma AtIsMod(k: nat, d: nat, n: nat)
    requires d < n
    ensures (k + d) % n == At(k, d, n)
  {
    var q, r := k / n, k % n;
    if r + d < n {
      Remainder(k + d, n, q, r + d);
    } else {
      OneMore(n, q);
      Remainder(k + d, n, q + 1, r + d - n);
    }
  }

  lemma OneMore(n: int, q: int)
    ensures n * (q + 1) == n * q + n
  {
  }

  lemma Remainder(x: int, n: nat, q: int, r: int)
    requires n > 0 && x == n * q + r && 0 <= r < n
    ensures x % n == r
  {
    var e := x / n - q;
    assert n * e == r - x % n by { Difference(n, x / n, q); }
    if e >= 1 { Bigger(n, e, 1); }
    if e <= -1 { Bigger(n, -1, e); }
  }

  lemma Difference(n: int, a: int, b: int)
    ensures n * (a - b) == n * a - n * b
  {
  }

  lemma Bigger(n: int, a: int, b: int)
    requires n > 0 && a >= b
    ensures n * a >= n * b
  {
  }

  /** Steps from the home slot to slot p. */
  function Steps(k: nat, p: nat, n: nat): (d: nat)
    requires p < n
    ensures d < n && At(k, d, n) == p
  {
    var h := k % n;
    if h <= p then p - h else p + n - h
  }

  lemma AtInjective(k: nat, d: nat, e: nat, n: nat)
    requires d < n && e < n && At(k, d, n) == At(k, e, n)
    ensures d == e
  {
  }

  // ----- tables as values -----

  ghost predicate Distinct(keys: seq<int>) {
    forall i, j :: 0 <= i < j < |keys| && keys[i] > 0 ==> keys[i] != keys[j]
  }

  /** From the home slot of key k, the first d slots are in use or were. */
  ghost predicate Chain(keys: seq<int>, k: nat, d: nat)
    requires d <= |keys|
  {
    forall e :: 0 <= e < d ==> keys[At(k, e, |keys|)] != 0
  }

  /** Every live key can be reached from its home slot through slots that are not
      empty. */
  ghost predicate Reachable(keys: seq<int>) {
    forall p :: 0 <= p < |keys| && keys[p] > 0 ==> Chain(keys, keys[p], Steps(keys[p], p, |keys|))
  }

  ghost predicate HasEmpty(keys: seq<int>) {
    exists p :: 0 <= p < |keys| && keys[p] == 0
  }

  /** The table holds exactly the entries of m. */
  ghost predicate Holds(keys: seq<int>, vals: seq<int>, m: map<int, int>) {
    && |vals| == |keys|
    && (forall p :: 0 <= p < |keys| && keys[p] > 0 ==> keys[p] in m && m[keys[p]] == vals[p])
    && (forall k :: k in m ==> k > 0 && k in keys)
  }

  ghost predicate Table(keys: seq<int>, vals: seq<int>, m: map<int, int>) {
    && |keys| > 0 && Distinct(keys) && Reachable(keys) && Holds(keys, vals, m)
    && forall p :: 0 <= p < |keys| ==> keys[p] >= DELETED
  }

  /** A probe for key k stops, if ever, within one round: exactly when some slot is
      empty or the key is there. */
  lemma ProbeEndsIff(keys: seq<int>, k: nat)
    requires |keys| > 0
    ensures (exists d: nat :: Hit(keys, k, d)) <==> HasEmpty(keys) || k in keys
  {
    var n := |keys|;
    if d: nat :| Hit(keys, k, d) {
      assert keys[(k + d) % n] in keys;
    }
    if HasEmpty(keys) {
      var p :| 0 <= p < n && keys[p] == 0;
      AtIsMod(k, Steps(k, p, n), n);
      assert Hit(keys, k, Steps(k, p, n));
    }
    if k in keys {
      var p :| 0 <= p < n && keys[p] == k;
      AtIsMod(k, Steps(k, p, n), n);
      assert Hit(keys, k, Steps(k, p, n));
    }
  }

  /** The probe for k stops d steps on. */
  ghost predicate Hit(keys: seq<int>, k: nat, d: nat)
    requires |keys| > 0
  {
    keys[(k + d) % |keys|] == 0 || keys[(k + d) % |keys|] == k
  }

  /** Stopping at an empty slot means that the key is nowhere. */
  lemma Absent(keys: seq<int>, k: nat, d: nat)
    requires Reachable(keys) && k > 0 && d < |keys| && keys[At(k, d, |keys|)] == 0
    requires forall e :: 0 <= e < d ==> keys[At(k, e, |keys|)] != k
    ensures k !in keys
  {
    if k in keys {
      var p :| 0 <= p < |keys| && keys[p] == k;
    }
  }

  /** Storing a key, in an empty slot or over a deleted one, behind a chain of
      slots that are not empty. */
  lemma Stored(keys: seq<int>, vals: seq<int>, m: map<int, int>, k: nat, v: int, d: nat)
    requires Table(keys, vals, m) && k > 0 && k !in keys && d < |keys| && Chain(keys, k, d)
    requires keys[At(k, d, |keys|)] <= 0
    ensures var p := At(k, d, |keys|); Table(keys[p := k], vals[p := v], m[k := v])
  {
    var n := |keys|;
    var p := At(k, d, n);
    var keys', vals', m' := keys[p := k], vals[p := v], m[k := v];
    AtInjective(k, d, Steps(k, p, n), n);
    forall q | 0 <= q < n && keys'[q] > 0
      ensures Chain(keys', keys'[q], Steps(keys'[q], q, n))
    {
      if q != p { assert Chain(keys, keys[q], Steps(keys[q], q, n)); }
    }
    forall x | x in m'
      ensures x > 0 && x in keys'
    {
      if x == k {
        assert keys'[p] == k;
      } else {
        var q :| 0 <= q < n && keys[q] == x;
        assert keys'[q] == x;
      }
    }
  }

  /** Changing the value of a key that is there. */
  lemma Replaced(keys: seq<int>, vals: seq<int>, m: map<int, int>, p: nat, v: int)
    requires Table(keys, vals, m) && p < |keys| && keys[p] > 0
    ensures Table(keys, vals[p := v], m[keys[p] := v])
  {
  }

  /** Marking a slot deleted. */
  lemma Deleted(keys: seq<int>, vals: seq<int>, m: map<int, int>, p: nat)
    requires Table(keys, vals, m) && p < |keys| && keys[p] > 0
    ensures Table(keys[p := DELETED], vals, m - {keys[p]})
  {
    var n := |keys|;
    var keys', m' := keys[p := DELETED], m - {keys[p]};
    forall q | 0 <= q < n && keys'[q] > 0
      ensures Chain(keys', keys'[q], Steps(keys'[q], q, n))
    {
      assert Chain(keys, keys[q], Steps(keys[q], q, n));
    }
    forall x | x in m'
      ensures x > 0 && x in keys'
    {
      var q :| 0 <= q < n && keys[q] == x;
      assert keys'[q] == x;
    }
  }

  // ----- counting -----

  /** Without deleted slots, a table with more slots than entries has an empty one. */
  lemma RoomLeft(keys: seq<int>, vals: seq<int>, m: map<int, int>)
    requires Table(keys, vals, m) && DELETED !in keys && |m| < |keys|
    ensures HasEmpty(keys)
  {
    if !HasEmpty(keys) {
      forall p | 0 <= p < |keys|
        ensures keys[p] > 0
      {
        assert keys[p] in keys;
      }
      forall x | x in FirstKeys(keys, |keys|)
        ensures x in m.Keys
      {
        assert x in keys;
      }
      SubsetCount(FirstKeys(keys, |keys|), m.Keys);
    }
  }

  /** The keys of the first n slots, all of them live: as many as slots. */
  ghost function FirstKeys(keys: seq<int>, n: nat): (r: set<int>)
    requires n <= |keys| && Distinct(keys) && forall p :: 0 <= p < |keys| ==> keys[p] > 0
    ensures |r| == n && forall x :: x in r ==> x in keys[..n]
  {
    if n == 0 then {}
    else
      assert keys[..n] == keys[..n - 1] + [keys[n - 1]];
      FirstKeys(keys, n - 1) + {keys[n - 1]}
  }
}
