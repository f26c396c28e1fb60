/** Symbol interning: names to keys through the trie and a modular key counter. */
module Symbols {
  import opened Trie

  /** Keys are masked with 0x7fffffff. */
  const KEYS: int := 0x8000_0000

  // ----- the key counter -----

  /** The key after n allocations. */
  function KeyOf(n: nat): int {
    3 * n % KEYS
  }

  lemma {:induction false} KeyStep(n: nat)
    ensures KeyOf(n + 1) == (KeyOf(n) + 3) % KEYS
  {
    var q, r := 3 * n / KEYS, 3 * n % KEYS;
    assert 3 * (n + 1) == KEYS * q + r + 3;
  }

  /** The counter comes back to zero after KEYS steps and not before. */
  lemma KeyZero(n: nat)
    requires 0 < n <= KEYS
    ensures KeyOf(n) == 0 <==> n == KEYS
  {
    var q := 3 * n / KEYS;
    assert 3 * n == KEYS * q + KeyOf(n) && 0 <= q <= 3;
  }

  /** Until then no key comes twice. */
  lemma KeysDistinct(i: nat, j: nat)
    requires i < KEYS && j < KEYS && KeyOf(i) == KeyOf(j)
    ensures i == j
  {
    var p, q := 3 * i / KEYS, 3 * j / KEYS;
    assert 3 * i == KEYS * p + KeyOf(i) && 3 * j == KEYS * q + KeyOf(j);
    assert 3 * (i - j) == KEYS * (p - q) && -2 <= p - q <= 2;
  }

  /** Setting an attribute takes keys to be multiples of 3. They are exactly as long
      as the counter has not wrapped round. */
  lemma MultipleOfThreeIff(n: nat)
    requires 0 < n < KEYS
    ensures KeyOf(n) % 3 == 0 <==> 3 * n < KEYS
  {
    var q := 3 * n / KEYS;
    assert 3 * n == KEYS * q + KeyOf(n) && 0 <= q <= 2;
  }

  // ----- names -----

  predicate Letter(c: char) {
    'a' <= c <= 'z' || 'A' <= c <= 'Z' || c == '_'
  }

  predicate Inner(c: char) {
    Letter(c) || '0' <= c <= '9' || c == '!' || c == '?'
  }

  /** A name: a letter or underscore, then letters, digits and underscores, with one
      exclamation or question mark at the end at most. */
  predicate ValidName(s: string) {
    && s != "" && Letter(s[0])
    && forall i :: 0 < i < |s| ==> Inner(s[i]) && (s[i] == '!' || s[i] == '?' ==> i == |s| - 1)
  }

  predicate EndsWith(s: string, t: string) {
    |t| <= |s| && s[|s| - |t|..] == t
  }

  /** The spelled-out endings. */
  function Spelled(s: string): string {
    if EndsWith(s, "_BANG") then s[..|s| - 5] + "!"
    else if EndsWith(s, "_QUES") then s[..|s| - 5] + "?"
    else s
  }

  /** "_BANG" at the end spells "!", "_QUES" spells "?", for every stem; names that end
      in "!" or "?" stand as they are. */
  lemma EndingsSpelled(stem: string)
    ensures Spelled(stem + "_BANG") == stem + "!" && Spelled(stem + "!") == stem + "!"
    ensures Spelled(stem + "_QUES") == stem + "?" && Spelled(stem + "?") == stem + "?"
  {
    EndsIn(stem, "_BANG");
    EndsIn(stem, "_QUES");
    LastDiffers(stem + "!", "_BANG");
    LastDiffers(stem + "!", "_QUES");
    LastDiffers(stem + "?", "_BANG");
    LastDiffers(stem + "?", "_QUES");
    LastDiffers(stem + "_QUES", "_BANG");
  }

  lemma EndsIn(stem: string, t: string)
    ensures EndsWith(stem + t, t) && (stem + t)[..|stem|] == stem
  {
    assert (stem + t)[|stem|..] == t;
  }

  lemma LastDiffers(s: string, t: string)
    requires s != "" && t != "" && s[|s| - 1] != t[|t| - 1]
    ensures !EndsWith(s, t)
  {
    if |t| <= |s| { assert s[|s| - |t|..][|t| - 1] == s[|s| - 1]; }
  }

  /** A name with neither ending stands as it is. */
  lemma OthersStand(s: string)
    requires forall stem: string :: s != stem + "_BANG" && s != stem + "_QUES"
    ensures Spelled(s) == s
  {
    if |s| >= 5 {
      var stem := s[..|s| - 5];
      assert s == stem + s[|s| - 5..];
    }
  }

  method CheckName(s: string) returns (ok: bool)
    ensures ok <==> ValidName(s)
  {
    if s == "" || !Letter(s[0]) {
      return false;
    }
    var p := 1;
    while p < |s|
      invariant 1 <= p <= |s|
      invariant forall i :: 0 < i < p ==> Inner(s[i]) && (s[i] == '!' || s[i] == '?' ==> i == |s| - 1)
    {
      if !Inner(s[p]) || ((s[p] == '!' || s[p] == '?') && p + 1 < |s|) {
        return false;
      }
      p := p + 1;
    }
    ok := true;
  }

  // ----- the table -----

  datatype Error = BadName | OutOfKeys
  datatype Result = Ok(key: int) | Err(error: Error)

  function CString(s: string): string {
    s + [NUL]
  }

  /** The trie holds the names, the i-th with the i-th key. */
  ghost predicate Interned(m: map<string, int>, names: seq<string>) {
    && (forall i :: 0 <= i < |names| ==> ValidName(names[i]) && Get(m, CString(names[i])) == Some(KeyOf(i + 1)))
    && (forall s :: s in m ==> exists i :: 0 <= i < |names| && s == CString(names[i]))
  }

  lemma InternedPut(m: map<string, int>, names: seq<string>, s: string)
    requires Interned(m, names) && ValidName(s) && CString(s) !in m
    ensures s !in names && Interned(m[CString(s) := KeyOf(|names| + 1)], names + [s])
  {
    var m', names' := m[CString(s) := KeyOf(|names| + 1)], names + [s];
    forall i | 0 <= i < |names'|
      ensures ValidName(names'[i]) && Get(m', CString(names'[i])) == Some(KeyOf(i + 1))
    {
      if i < |names| { assert Get(m, CString(names[i])) == Some(KeyOf(i + 1)); }
    }
    forall t | t in m'
      ensures exists i :: 0 <= i < |names'| && t == CString(names'[i])
    {
      if t == CString(s) {
        assert names'[|names|] == s;
      } else {
        var i :| 0 <= i < |names| && t == CString(names[i]);
        assert names'[i] == names[i];
      }
    }
  }

  class Table {
    var symbolTree: Node?
    var nextKey: int
    /** Names interned so far, in order. */
    ghost var names: seq<string>

    ghost predicate Valid()
      reads this, symbolTree, Footprint(symbolTree)
    {
      && (symbolTree != null ==> symbolTree.Valid() && this !in symbolTree.Repr)
      && |names| < KEYS && nextKey == KeyOf(|names|)
      && Interned(Contents(symbolTree), names)
    }

    constructor ()
      ensures Valid() && names == []
    {
      symbolTree, nextKey, names := null, 0, [];
    }

    /** The key of a name. */
    ghost function Lookup(name: string): Option<int>
      reads this, symbolTree, Footprint(symbolTree)
    {
      Get(Contents(symbolTree), CString(name))
    }

    /** Different names have different keys, and all of them are positive. */
    lemma Injective(s: string, t: string)
      requires Valid() && Lookup(s).Some? && Lookup(t) == Lookup(s)
      ensures s == t && 0 < Lookup(s).value < KEYS
    {
      var i :| 0 <= i < |names| && CString(s) == CString(names[i]);
      var j :| 0 <= j < |names| && CString(t) == CString(names[j]);
      SameName(s, names[i]);
      SameName(t, names[j]);
      KeysDistinct(i + 1, j + 1);
      KeyZero(i + 1);
    }

    method Sym(input: string) returns (r: Result)
      requires Valid()
      modifies this, Footprint(symbolTree)
      ensures r != Err(OutOfKeys) ==> Valid() && fresh(Footprint(symbolTree) - old(Footprint(symbolTree)))
      ensures r.Ok? <==> ValidName(Spelled(input)) && (old(Lookup(Spelled(input))).Some? || old(|names|) < KEYS - 1)
      ensures r == Err(BadName) <==> !ValidName(Spelled(input))
      ensures r == Err(OutOfKeys) <==> ValidName(Spelled(input)) && old(Lookup(Spelled(input))).None? && old(|names|) == KEYS - 1
      ensures r.Err? ==> symbolTree == old(symbolTree) && names == old(names)
      ensures r.Ok? ==> Lookup(Spelled(input)) == Some(r.key)
      ensures r.Ok? && old(Lookup(Spelled(input))).Some? ==> old(Lookup(Spelled(input))) == Some(r.key)
      ensures r.Ok? ==> names == if old(Lookup(Spelled(input))).Some? then old(names) else old(names) + [Spelled(input)]
      ensures r.Ok? ==> forall s: string :: s != Spelled(input) ==> Lookup(s) == old(Lookup(s))
    {
      var s := Spelled(input);
      var ok := CheckName(s);
      if !ok {
        return Err(BadName);
      }
      EndsAtNul(s);
      var found := SearchTrie(symbolTree, CString(s));
      if found.Some? {
        return Ok(found.value);
      }
      r := NewSymbol(s);
    }

    /** The next key for a name not interned yet. */
    method NewSymbol(s: string) returns (r: Result)
      requires Valid() && ValidName(s) && Lookup(s).None?
      modifies this, Footprint(symbolTree)
      ensures r == (if old(|names|) == KEYS - 1 then Err(OutOfKeys) else Ok(KeyOf(old(|names|) + 1)))
      ensures r.Err? ==> symbolTree == old(symbolTree) && names == old(names)
      ensures r.Ok? ==> Valid() && names == old(names) + [s] && Lookup(s) == Some(r.key)
      ensures r.Ok? ==> fresh(Footprint(symbolTree) - old(Footprint(symbolTree)))
      ensures r.Ok? ==> forall t: string :: t != s ==> Lookup(t) == old(Lookup(t))
    {
      KeyStep(|names|);
      KeyZero(|names| + 1);
      nextKey := (nextKey + 3) % KEYS;
      if nextKey == 0 {
        return Err(OutOfKeys);
      }
      Enter(s);
      r := Ok(nextKey);
    }

    /** Put a new name in the tree under the next key. */
    method Enter(s: string)
      requires (symbolTree != null ==> symbolTree.Valid() && this !in symbolTree.Repr) && Interned(Contents(symbolTree), names)
      requires |names| + 1 < KEYS && nextKey == KeyOf(|names| + 1) && ValidName(s) && Lookup(s).None?
      modifies this, Footprint(symbolTree)
      ensures Valid() && names == old(names) + [s] && nextKey == old(nextKey) && Lookup(s) == Some(nextKey)
      ensures fresh(Footprint(symbolTree) - old(Footprint(symbolTree)))
      ensures forall t: string :: t != s ==> Lookup(t) == old(Lookup(t))
    {
      EndsAtNul(s);
      ghost var m := Contents(symbolTree);
      InternedPut(m, names, s);
      OthersKept(m, s, nextKey);
      symbolTree := InsTrie(symbolTree, CString(s), nextKey);
      names := names + [s];
    }
  }

  /** Two inputs that spell one name are one symbol. */
  method SymTwice(t: Table, input1: string, input2: string) returns (r1: Result, r2: Result)
    requires t.Valid() && Spelled(input1) == Spelled(input2)
    modifies t, Footprint(t.symbolTree)
    ensures r1.Ok? ==> t.Valid() && r2 == r1
    ensures r1.Ok? ==> t.Lookup(Spelled(input1)) == Some(r1.key)
    ensures r1.Ok? ==> t.names == if old(t.Lookup(Spelled(input1))).Some? then old(t.names) else old(t.names) + [Spelled(input1)]
  {
    r1 := t.Sym(input1);
    r2 := r1;
    if r1.Ok? {
      r2 := t.Sym(input2);
    }
  }

  /** A name and its spelled-out form, in either order. */
  method BothSpellings(t: Table, stem: string, bang: bool, longFirst: bool) returns (r1: Result, r2: Result)
    requires t.Valid()
    modifies t, Footprint(t.symbolTree)
    ensures r1.Ok? ==> t.Valid() && r2 == r1 && t.Lookup(stem + (if bang then "!" else "?")) == Some(r1.key)
  {
    EndingsSpelled(stem);
    var short := stem + (if bang then "!" else "?");
    var long := stem + (if bang then "_BANG" else "_QUES");
    if longFirst {
      r1, r2 := SymTwice(t, long, short);
    } else {
      r1, r2 := SymTwice(t, short, long);
    }
  }

  /** A new entry does not change what other names look up. */
  lemma OthersKept(m: map<string, int>, s: string, key: int)
    ensures forall t: string :: t != s ==> Get(m[CString(s) := key], CString(t)) == Get(m, CString(t))
  {
    forall t: string | t != s
      ensures CString(t) != CString(s)
    {
      SameName(t, s);
    }
  }

  lemma SameName(s: string, t: string)
    ensures CString(s) == CString(t) ==> s == t
  {
    if CString(s) == CString(t) {
      assert s == CString(s)[..|s|] && t == CString(t)[..|t|];
    }
  }

  lemma EndsAtNul(s: string)
    requires ValidName(s)
    ensures Terminated(CString(s))
  {
    forall i | 0 <= i < |s|
      ensures s[i] != NUL
    {
      if i == 0 { assert Letter(s[0]); } else { assert Inner(s[i]); }
    }
  }
}
