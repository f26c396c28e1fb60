/** The attribute table of an object: get, set and delete by probing, with the load
    rule that counts live entries only. */
module AttrTable {
  import opened Probing
  import opened Sets

  const MAX_PERCENT_FULL: int := 66
  const PAD_PERCENT_FACTOR: int := 300
  const AINIT: nat := 8

  datatype Option<T> = None | Some(value: T)

  class Attrs {
    var keys: array<int>
    var vals: array<int>
    var alen: nat
    /** The entries, as a map. */
    ghost var m: map<int, int>

    ghost predicate Valid()
      reads this, keys, vals
    {
      keys != vals && keys.Length >= AINIT && Table(keys[..], vals[..], m) && alen == |m|
    }

    /** add_attrs: eight empty slots. */
    constructor ()
      ensures Valid() && m == map[] && fresh(keys) && fresh(vals)
      ensures keys.Length == AINIT && forall p :: 0 <= p < AINIT ==> keys[p] == 0
    {
      keys := new int[AINIT](_ => 0);
      vals := new int[AINIT](_ => 0);
      alen, m := 0, map[];
    }

    /** The probe loop: steps to the key or to the first empty slot. */
    method Probe(tgt: nat) returns (d: nat)
      requires Valid() && tgt > 0 && (HasEmpty(keys[..]) || tgt in m)
      ensures d < keys.Length && Chain(keys[..], tgt, d)
      ensures tgt in m <==> keys[At(tgt, d, keys.Length)] == tgt
      ensures tgt !in m ==> keys[At(tgt, d, keys.Length)] == 0 && tgt !in keys[..]
    {
      d := 0;
      ghost var ks := keys[..];
      ghost var stop: nat := StopsAt(ks, tgt);
      AtIsMod(tgt, 0, keys.Length);
      while keys[(tgt + d) % keys.Length] != 0 && keys[(tgt + d) % keys.Length] != tgt
        invariant d <= stop < keys.Length && keys[..] == ks && (tgt + d) % keys.Length == At(tgt, d, keys.Length)
        invariant forall e :: 0 <= e < d ==> ks[At(tgt, e, |ks|)] != 0 && ks[At(tgt, e, |ks|)] != tgt
        decreases stop - d
      {
        d := d + 1;
        AtIsMod(tgt, d, keys.Length);
      }
      if keys[At(tgt, d, keys.Length)] == 0 { Absent(ks, tgt, d); }
    }

    method GetAttr(tgt: nat) returns (r: Option<int>)
      requires Valid() && tgt > 0 && (HasEmpty(keys[..]) || tgt in m)
      ensures r == if tgt in m then Some(m[tgt]) else None
    {
      var d := Probe(tgt);
      var p := At(tgt, d, keys.Length);
      if keys[p] != 0 {
        r := Some(vals[p]);
      } else {
        r := None;
      }
    }

    method DelAttr(tgt: nat) returns (found: bool)
      requires Valid() && tgt > 0 && (HasEmpty(keys[..]) || tgt in m)
      modifies this, keys
      ensures Valid() && found == old(tgt in m) && m == old(m) - {tgt as int}
      ensures keys == old(keys) && vals == old(vals)
      ensures forall p :: 0 <= p < keys.Length ==> keys[p] == if old(keys[p]) == tgt then DELETED else old(keys[p])
    {
      var d := Probe(tgt);
      var p := At(tgt, d, keys.Length);
      found := keys[p] != 0;
      if found {
        Deleted(keys[..], vals[..], m, p);
        ghost var after := keys[..][p := DELETED];
        keys[p] := DELETED;
        assert keys[..] == after;
        alen := alen - 1;
        m := m - {tgt as int};
      } else {
        assert m - {tgt as int} == m;
      }
    }

    /** More than 66 percent of the slots hold entries. Deleted slots do not count. */
    predicate Overloaded()
      requires keys.Length > 0
      reads this, keys
    {
      alen * 100 / keys.Length > MAX_PERCENT_FULL
    }

    /** Nothing was ever deleted since the slots were last laid out. */
    ghost predicate Roomy()
      reads this, keys
    {
      DELETED !in keys[..] && alen < keys.Length
    }

    /** A table without deleted slots always has an empty one. */
    lemma RoomyHasEmpty()
      requires Valid() && Roomy()
      ensures HasEmpty(keys[..])
    {
      RoomLeft(keys[..], vals[..], m);
    }

    /** New slots, and every live entry probed into them; deleted slots are
        dropped. */
    method AttrsRealloc()
      requires Valid()
      modifies this
      ensures Valid() && m == old(m) && Roomy() && !Overloaded() && fresh(keys) && fresh(vals)
      ensures keys.Length == NewSize(alen) && alen == old(alen)
    {
      var asize := if alen * PAD_PERCENT_FACTOR / 100 > AINIT then alen * PAD_PERCENT_FACTOR / 100 else AINIT;
      SizeHasRoom(alen);
      var newKeys, newVals := new int[asize](_ => 0), new int[asize](_ => 0);
      MoveEntries(newKeys, newVals);
      keys, vals := newKeys, newVals;
    }

    method MoveEntries(newKeys: array<int>, newVals: array<int>)
      requires Valid() && {newKeys, newVals} !! {keys, vals} && newKeys != newVals
      requires newKeys.Length == newVals.Length > alen && forall p :: 0 <= p < newKeys.Length ==> newKeys[p] == 0
      modifies newKeys, newVals
      ensures Table(newKeys[..], newVals[..], m) && DELETED !in newKeys[..]
    {
      ghost var done: map<int, int> := map[];
      ghost var ks, vs := keys[..], vals[..];
      var i := 0;
      while i < keys.Length
        invariant i <= keys.Length && Moved(ks, m, i, done)
        invariant Table(newKeys[..], newVals[..], done) && DELETED !in newKeys[..]
      {
        MovedStep(ks, vs, m, i, done);
        if keys[i] > 0 {
          PutNew(newKeys, newVals, done, keys[i], vals[i]);
          done := done[ks[i] := vs[i]];
        }
        i := i + 1;
      }
      MovedAll(ks, vs, m, done);
    }

    method SetAttr(tgt: nat, value: int)
      requires Valid() && tgt > 0 && tgt % 3 == 0
      requires Overloaded() || Roomy() || HasEmpty(keys[..]) || tgt in m
      modifies this, keys, vals
      ensures Valid() && m == old(m)[tgt := value]
      ensures old(Roomy()) ==> Roomy()
      ensures old(Overloaded()) ==> fresh(keys) && fresh(vals) && Roomy()
      ensures !old(Overloaded()) ==> keys == old(keys) && vals == old(vals)
      ensures !old(Overloaded()) && old(tgt !in m && keys[tgt % keys.Length] == 0) ==>
                keys[..] == old(keys[..])[tgt % old(keys.Length) := tgt]
    {
      MakeRoom();
      if Roomy() { RoomyHasEmpty(); }
      Store(tgt, value);
    }

    /** The load rule. */
    method MakeRoom()
      requires Valid()
      modifies this
      ensures Valid() && m == old(m) && !Overloaded() && (old(Roomy()) ==> Roomy())
      ensures old(Overloaded()) ==> fresh(keys) && fresh(vals) && Roomy()
      ensures !old(Overloaded()) ==> keys == old(keys) && vals == old(vals)
    {
      if alen * 100 / keys.Length > MAX_PERCENT_FULL {
        AttrsRealloc();
      }
    }

    /** The probe of set: on to the key or an empty slot, remembering the last
        deleted slot on the way. */
    method Store(tgt: nat, value: int)
      requires Valid() && tgt > 0 && (HasEmpty(keys[..]) || tgt in m) && !Overloaded()
      modifies this, keys, vals
      ensures Valid() && m == old(m)[tgt := value] && keys == old(keys) && vals == old(vals)
      ensures old(Roomy()) ==> Roomy()
      ensures old(tgt !in m && keys[tgt % keys.Length] == 0) ==> keys[..] == old(keys[..])[tgt % keys.Length := tgt]
    {
      LoadBound(alen * 100, keys.Length, MAX_PERCENT_FULL);
      var d, hole := ProbeHole(tgt);
      var p := At(tgt, d, keys.Length);
      if keys[p] == 0 {
        if hole >= 0 {
          p := hole;
        }
        Stored(keys[..], vals[..], m, tgt, value, Steps(tgt, p, keys.Length));
        ghost var ks, vs := keys[..][p := tgt], vals[..][p := value];
        alen := alen + 1;
        keys[p] := tgt;
        vals[p] := value;
        assert keys[..] == ks && vals[..] == vs;
      } else {
        Replaced(keys[..], vals[..], m, p, value);
        ghost var vs := vals[..][p := value];
        vals[p] := value;
        assert vals[..] == vs;
      }
      m := m[tgt := value];
    }

    method ProbeHole(tgt: nat) returns (d: nat, hole: int)
      requires Valid() && tgt > 0 && (HasEmpty(keys[..]) || tgt in m)
      ensures d < keys.Length && Chain(keys[..], tgt, d)
      ensures tgt in m <==> keys[At(tgt, d, keys.Length)] == tgt
      ensures tgt !in m ==> keys[At(tgt, d, keys.Length)] == 0 && tgt !in keys[..]
      ensures hole >= 0 ==> hole < keys.Length && keys[hole] == DELETED && Steps(tgt, hole, keys.Length) < d
      ensures keys[tgt % keys.Length] == 0 ==> d == 0 && hole < 0
    {
      d, hole := 0, -1;
      ghost var ks := keys[..];
      ghost var stop: nat := StopsAt(ks, tgt);
      AtIsMod(tgt, 0, keys.Length);
      while keys[(tgt + d) % keys.Length] != 0
        invariant d <= stop < keys.Length && (tgt + d) % keys.Length == At(tgt, d, keys.Length)
        invariant forall e :: 0 <= e < d ==> ks[At(tgt, e, |ks|)] != 0 && ks[At(tgt, e, |ks|)] != tgt
        invariant hole >= 0 ==> hole < keys.Length && keys[hole] == DELETED && Steps(tgt, hole, keys.Length) < d
        invariant d == 0 ==> hole < 0
        decreases stop - d
      {
        if keys[(tgt + d) % keys.Length] < 0 {
          hole := (tgt + d) % keys.Length;
          AtInjective(tgt, d, Steps(tgt, hole, keys.Length), keys.Length);
        } else if keys[(tgt + d) % keys.Length] == tgt {
          break;
        }
        d := d + 1;
        AtIsMod(tgt, d, keys.Length);
      }
      if keys[At(tgt, d, keys.Length)] == 0 { Absent(ks, tgt, d); }
    }
  }

  function NewSize(alen: nat): nat {
    if alen * PAD_PERCENT_FACTOR / 100 > AINIT then alen * PAD_PERCENT_FACTOR / 100 else AINIT
  }

  /** The new size leaves room and is not overloaded. */
  lemma SizeHasRoom(alen: nat)
    ensures alen < NewSize(alen) && alen * 100 / NewSize(alen) <= MAX_PERCENT_FULL
  {
    var n := NewSize(alen);
    assert alen * PAD_PERCENT_FACTOR / 100 == 3 * alen;
    if alen * 100 / n > MAX_PERCENT_FULL { Quotient(alen * 100, n, MAX_PERCENT_FULL + 1); }
  }

  lemma Quotient(a: int, n: int, q: int)
    requires n > 0 && a / n >= q
    ensures q * n <= a
  {
    Bigger(n, a / n, q);
  }

  lemma LoadBound(a: int, n: int, q: int)
    requires n > 0 && a / n <= q
    ensures a < (q + 1) * n
  {
    if (q + 1) * n <= a { Bigger(n, q, a / n); }
  }

  /** The live keys of the first i slots are the ones moved. */
  ghost predicate Moved(keys: seq<int>, m: map<int, int>, i: nat, done: map<int, int>) {
    && i <= |keys| && done.Keys <= m.Keys && (forall k :: k in done ==> done[k] == m[k] && k in keys[..i])
    && forall p :: 0 <= p < i && keys[p] > 0 ==> keys[p] in done
  }

  lemma MovedStep(keys: seq<int>, vals: seq<int>, m: map<int, int>, i: nat, done: map<int, int>)
    requires Table(keys, vals, m) && i < |keys| && Moved(keys, m, i, done)
    ensures keys[i] > 0 ==> keys[i] !in done && |done| < |m| && Moved(keys, m, i + 1, done[keys[i] := vals[i]])
    ensures keys[i] <= 0 ==> Moved(keys, m, i + 1, done)
  {
    if keys[i] > 0 {
      LiveKey(keys, vals, m, i);
      MoreLeft(done, m, keys[i]);
      MovedKey(keys, m, i, done, vals[i]);
    } else {
      MovedDead(keys, m, i, done);
    }
  }

  lemma MoreLeft(done: map<int, int>, m: map<int, int>, k: int)
    requires done.Keys <= m.Keys && k in m && k !in done
    ensures |done| < |m|
  {
    SubsetCount(done.Keys + {k}, m.Keys);
  }

  lemma MovedDead(keys: seq<int>, m: map<int, int>, i: nat, done: map<int, int>)
    requires i < |keys| && Moved(keys, m, i, done) && keys[i] <= 0
    ensures Moved(keys, m, i + 1, done)
  {
    assert keys[..i + 1] == keys[..i] + [keys[i]];
  }

  /** A live key stands for its entry and does not come earlier. */
  lemma LiveKey(keys: seq<int>, vals: seq<int>, m: map<int, int>, i: nat)
    requires Table(keys, vals, m) && i < |keys| && keys[i] > 0
    ensures keys[i] in m && m[keys[i]] == vals[i] && keys[i] !in keys[..i]
  {
  }

  lemma MovedKey(keys: seq<int>, m: map<int, int>, i: nat, done: map<int, int>, v: int)
    requires i < |keys| && Moved(keys, m, i, done) && keys[i] in m && m[keys[i]] == v
    ensures Moved(keys, m, i + 1, done[keys[i] := v])
  {
    var more := done[keys[i] := v];
    forall k | k in more
      ensures more[k] == m[k] && k in keys[..i + 1]
    {
      assert keys[..i + 1] == keys[..i] + [keys[i]];
    }
    forall p | 0 <= p < i + 1 && keys[p] > 0
      ensures keys[p] in more
    {
    }
  }

  lemma MovedAll(keys: seq<int>, vals: seq<int>, m: map<int, int>, done: map<int, int>)
    requires Table(keys, vals, m) && Moved(keys, m, |keys|, done)
    ensures done == m
  {
    forall k | k in m
      ensures k in done
    {
      assert k > 0 && k in keys;
      var p :| 0 <= p < |keys| && keys[p] == k;
      assert keys[p] in done;
    }
    assert forall k :: k in done <==> k in m;
    assert forall k :: k in done ==> done[k] == m[k];
    assert done.Keys == m.Keys;
  }

  /** Probe a key that is not there into slots without deleted ones. */
  method PutNew(keys: array<int>, vals: array<int>, ghost done: map<int, int>, key: nat, val: int)
    requires keys != vals && Table(keys[..], vals[..], done) && DELETED !in keys[..]
    requires key > 0 && key !in done && |done| < keys.Length
    modifies keys, vals
    ensures Table(keys[..], vals[..], done[key := val]) && DELETED !in keys[..]
  {
    ghost var ks, vs := keys[..], vals[..];
    RoomLeft(ks, vs, done);
    var d := FreeSlot(keys, key);
    var p := At(key, d, keys.Length);
    Stored(ks, vs, done, key, val, d);
    keys[p] := key;
    vals[p] := val;
    assert keys[..] == ks[p := key] && vals[..] == vs[p := val];
  }

  method FreeSlot(keys: array<int>, key: nat) returns (d: nat)
    requires keys.Length > 0 && HasEmpty(keys[..]) && key > 0
    ensures d < keys.Length && Chain(keys[..], key, d) && keys[At(key, d, keys.Length)] == 0
  {
    ghost var ks := keys[..];
    ghost var p :| 0 <= p < |ks| && ks[p] == 0;
    ghost var stop := Steps(key, p, |ks|);
    d := 0;
    AtIsMod(key, 0, keys.Length);
    while keys[(key + d) % keys.Length] != 0
      invariant d <= stop < keys.Length && (key + d) % keys.Length == At(key, d, keys.Length)
      invariant Chain(ks, key, d)
      decreases stop - d
    {
      d := d + 1;
      AtIsMod(key, d, keys.Length);
    }
  }

  // ----- runs -----

  function Entries(es: seq<(nat, int)>): map<int, int> {
    if es == [] then map[] else Entries(es[..|es| - 1])[es[|es| - 1].0 as int := es[|es| - 1].1]
  }

  /** Any run of sets without deletes: the table holds what was set, and keeps an
      empty slot for the next probe to stop at. */
  method SetAll(es: seq<(nat, int)>) returns (t: Attrs)
    requires forall e :: e in es ==> e.0 > 0 && e.0 % 3 == 0
    ensures t.Valid() && t.m == Entries(es) && HasEmpty(t.keys[..])
  {
    t := new Attrs();
    var i := 0;
    while i < |es|
      invariant i <= |es| && fresh(t) && fresh(t.keys) && fresh(t.vals)
      invariant t.Valid() && t.Roomy() && t.m == Entries(es[..i])
    {
      assert es[i] in es;
      assert es[..i + 1][..i] == es[..i];
      t.SetAttr(es[i].0, es[i].1);
      i := i + 1;
    }
    assert es[..|es|] == es;
    t.RoomyHasEmpty();
  }

  /** With deletes the rule is not enough: eight keys set and deleted again leave an
      empty table without an empty slot, on which a probe for any key runs round
      and round. */
  method FillWithDeleted() returns (t: Attrs)
    ensures t.Valid() && t.m == map[] && !t.Overloaded()
    ensures forall k: nat, d: nat :: k > 0 ==> !Hit(t.keys[..], k, d)
  {
    t := new Attrs();
    var j: nat := 1;
    while j <= 8
      invariant 1 <= j <= 9 && fresh(t) && fresh(t.keys) && fresh(t.vals)
      invariant t.Valid() && t.m == map[]
      invariant Filling(t.keys[..], j)
    {
      assert Filled(3 * j % 8) == j;
      ghost var ks := t.keys[..];
      SetAndDelete(t, 3 * j);
      FilledOne(ks, j);
      j := j + 1;
    }
    NeverHits(t.keys[..]);
  }

  lemma NeverHits(keys: seq<int>)
    requires Filling(keys, 9)
    ensures forall k: nat, d: nat :: k > 0 ==> !Hit(keys, k, d)
  {
    forall k: nat, d: nat | k > 0
      ensures !Hit(keys, k, d)
    {
      var p := (k + d) % 8;
      assert Filled(p) < 9;
    }
  }

  /** The first j - 1 rounds have left their slots deleted. */
  ghost predicate Filling(keys: seq<int>, j: nat) {
    |keys| == 8 && forall p :: 0 <= p < 8 ==> keys[p] == if Filled(p) < j then DELETED else 0
  }

  lemma FilledOne(keys: seq<int>, j: nat)
    requires Filling(keys, j) && 1 <= j <= 8
    ensures Filling(keys[3 * j % 8 := DELETED], j + 1)
  {
    forall p | 0 <= p < 8 && Filled(p) == j
      ensures p == 3 * j % 8
    {
    }
  }

  /** The round in which slot p gets its key: key 3j starts at slot 3j mod 8. */
  function Filled(p: nat): (j: nat)
    requires p < 8
    ensures 1 <= j <= 8 && 3 * j % 8 == p
  {
    if p == 0 then 8 else 3 * p % 8
  }

  method SetAndDelete(t: Attrs, k: nat)
    requires t.Valid() && t.m == map[] && t.keys.Length == 8 && k > 0 && k % 3 == 0 && t.keys[k % 8] == 0
    modifies t, t.keys, t.vals
    ensures t.Valid() && t.m == map[] && t.keys == old(t.keys) && t.vals == old(t.vals)
    ensures t.keys[..] == old(t.keys[..])[k % 8 := DELETED]
  {
    ghost var ks := t.keys[..];
    assert ks[k % 8] == 0 && k !in ks by { NoKeys(ks, t.vals[..], k); }
    t.SetAttr(k, 0);
    var found := t.DelAttr(k);
    assert t.m == map[];
  }

  lemma NoKeys(keys: seq<int>, vals: seq<int>, k: nat)
    requires Table(keys, vals, map[]) && k > 0
    ensures k !in keys
  {
  }

  /** A slot where a probe for k stops. */
  ghost function StopsAt(keys: seq<int>, k: nat): (d: nat)
    requires |keys| > 0 && (HasEmpty(keys) || k in keys)
    ensures d < |keys| && (keys[At(k, d, |keys|)] == 0 || keys[At(k, d, |keys|)] == k)
  {
    var p :| 0 <= p < |keys| && (keys[p] == 0 || keys[p] == k);
    Steps(k, p, |keys|)
  }
}
