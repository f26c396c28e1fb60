/** The ternary search trie of symbol names. */
module Trie {
  datatype Option<T> = None | Some(value: T)

  const NUL: char := '\0'

  /** A C string with its terminator: the only NUL is the last character. */
  ghost predicate Terminated(s: seq<char>) {
    |s| > 0 && s[|s| - 1] == NUL && forall i :: 0 <= i < |s| - 1 ==> s[i] != NUL
  }

  ghost function Get(m: map<seq<char>, int>, s: seq<char>): Option<int> {
    if s in m then Some(m[s]) else None
  }

  /** Where a node looks for s, given what is below it. */
  ghost function Next(c: char, key: int, lo: map<seq<char>, int>, eq: map<seq<char>, int>, hi: map<seq<char>, int>, s: seq<char>): Option<int>
    requires |s| > 0
  {
    if s[0] < c then Get(lo, s)
    else if s[0] > c then Get(hi, s)
    else if c == NUL then Some(key)
    else Get(eq, s[1..])
  }

  ghost predicate Agrees(m: map<seq<char>, int>, c: char, key: int, lo: map<seq<char>, int>, eq: map<seq<char>, int>, hi: map<seq<char>, int>) {
    && (forall s {:trigger Next(c, key, lo, eq, hi, s)} :: Terminated(s) ==> Get(m, s) == Next(c, key, lo, eq, hi, s))
    && (forall s :: s in m ==> Terminated(s))
  }

  /** Storing s below the right child, or at the node itself. */
  lemma AgreesPut(m: map<seq<char>, int>, c: char, key: int, lo: map<seq<char>, int>, eq: map<seq<char>, int>, hi: map<seq<char>, int>,
                  s: seq<char>, v: int)
    requires Agrees(m, c, key, lo, eq, hi) && Terminated(s)
    ensures s[0] < c ==> Agrees(m[s := v], c, key, lo[s := v], eq, hi)
    ensures s[0] > c ==> Agrees(m[s := v], c, key, lo, eq, hi[s := v])
    ensures s[0] == c && c != NUL ==> Agrees(m[s := v], c, key, lo, eq[s[1..] := v], hi)
    ensures s[0] == c == NUL ==> Agrees(m[s := v], c, v, lo, eq, hi)
  {
    if s[0] != c {
      PutAside(m, c, key, lo, eq, hi, s, v);
    } else {
      PutHere(m, c, key, lo, eq, hi, s, v);
    }
  }

  lemma PutAside(m: map<seq<char>, int>, c: char, key: int, lo: map<seq<char>, int>, eq: map<seq<char>, int>, hi: map<seq<char>, int>,
                 s: seq<char>, v: int)
    requires Agrees(m, c, key, lo, eq, hi) && Terminated(s)
    ensures s[0] < c ==> Agrees(m[s := v], c, key, lo[s := v], eq, hi)
    ensures s[0] > c ==> Agrees(m[s := v], c, key, lo, eq, hi[s := v])
  {
    OthersStay(m, c, key, lo, eq, hi, s, v);
  }

  lemma PutHere(m: map<seq<char>, int>, c: char, key: int, lo: map<seq<char>, int>, eq: map<seq<char>, int>, hi: map<seq<char>, int>,
                s: seq<char>, v: int)
    requires Agrees(m, c, key, lo, eq, hi) && Terminated(s) && s[0] == c
    ensures c != NUL ==> Agrees(m[s := v], c, key, lo, eq[s[1..] := v], hi)
    ensures c == NUL ==> Agrees(m[s := v], c, v, lo, eq, hi)
  {
    OthersStay(m, c, key, lo, eq, hi, s, v);
  }

  lemma OthersStay(m: map<seq<char>, int>, c: char, key: int, lo: map<seq<char>, int>, eq: map<seq<char>, int>, hi: map<seq<char>, int>,
                   s: seq<char>, v: int)
    requires Agrees(m, c, key, lo, eq, hi) && Terminated(s)
    ensures forall t :: Terminated(t) ==> Get(m, t) == Next(c, key, lo, eq, hi, t) && (t != s ==> Get(m[s := v], t) == Get(m, t))
    ensures forall t :: Terminated(t) ==> (s == t <==> s[0] == t[0] && s[1..] == t[1..]) && (t[0] == NUL ==> t == [NUL])
  {
    forall t | Terminated(t)
      ensures Get(m, t) == Next(c, key, lo, eq, hi, t) && (t != s ==> Get(m[s := v], t) == Get(m, t))
      ensures s == t <==> s[0] == t[0] && s[1..] == t[1..]
      ensures t[0] == NUL ==> t == [NUL]
    {
      SameTail(s, t);
    }
  }

  /** A new node holds one string. */
  lemma AgreesNew(s: seq<char>, v: int)
    requires Terminated(s)
    ensures Agrees(map[s := v], s[0], v, map[], if s[0] == NUL then map[] else map[s[1..] := v], map[])
  {
    forall t | Terminated(t)
      ensures s == t <==> s[0] == t[0] && s[1..] == t[1..]
      ensures t[0] == NUL ==> t == [NUL]
    {
      SameTail(s, t);
    }
  }

  lemma SameTail(s: seq<char>, t: seq<char>)
    requires |s| > 0 && |t| > 0
    ensures s == t <==> s[0] == t[0] && s[1..] == t[1..]
  {
    if s[0] == t[0] && s[1..] == t[1..] {
      assert s == [s[0]] + s[1..] && t == [t[0]] + t[1..];
    }
  }

  /** A node: strings that start below splitchar are in lokid, above in hikid, and
      those that start with it go on in eqkid; at the terminator, key is the
      symbol. */
  class Node {
    var splitchar: char
    var lokid: Node?
    var eqkid: Node?
    var hikid: Node?
    var key: int

    ghost var Repr: set<object>
    ghost var m: map<seq<char>, int>

    constructor (splitchar: char)
      ensures this.splitchar == splitchar && lokid == null && eqkid == null && hikid == null
      ensures Repr == {this} && m == map[]
    {
      this.splitchar, lokid, eqkid, hikid, key := splitchar, null, null, null, 0;
      Repr, m := {this}, map[];
    }

    ghost predicate Kid(k: Node?)
      reads this, Repr
    {
      k != null ==> k in Repr && k.Repr <= Repr && this !in k.Repr
    }

    ghost predicate Valid()
      reads this, Repr
      decreases Repr
    {
      && this in Repr && Kid(lokid) && Kid(eqkid) && Kid(hikid)
      && (lokid != null ==> lokid.Valid())
      && (eqkid != null ==> eqkid.Valid() && splitchar != NUL)
      && (hikid != null ==> hikid.Valid())
      && (lokid != null && eqkid != null ==> lokid.Repr !! eqkid.Repr)
      && (lokid != null && hikid != null ==> lokid.Repr !! hikid.Repr)
      && (eqkid != null && hikid != null ==> eqkid.Repr !! hikid.Repr)
      && Agrees(m, splitchar, key, Contents(lokid), Contents(eqkid), Contents(hikid))
    }
  }

  ghost function Contents(p: Node?): map<seq<char>, int>
    reads p
  {
    if p == null then map[] else p.m
  }

  ghost function Footprint(p: Node?): set<object>
    reads p
  {
    if p == null then {} else p.Repr
  }

  /** Insert below p. Only the entry of s changes. */
  method InsTrie(p: Node?, s: seq<char>, key: int) returns (r: Node)
    requires Terminated(s) && (p != null ==> p.Valid())
    modifies Footprint(p)
    ensures r.Valid() && fresh(r.Repr - old(Footprint(p)))
    ensures r.m == old(Contents(p))[s := key]
    ensures p != null ==> r == p
    decreases |s|, Footprint(p), 1
  {
    if p == null {
      r := InsNew(s, key);
      return;
    }
    r := p;
    if s[0] < p.splitchar {
      InsLo(p, s, key);
    } else if s[0] == p.splitchar {
      if s[0] == NUL {
        SetKey(p, s, key);
      } else {
        InsEq(p, s, key);
      }
    } else {
      InsHi(p, s, key);
    }
  }

  method InsNew(s: seq<char>, key: int) returns (r: Node)
    requires Terminated(s)
    ensures r.Valid() && fresh(r.Repr) && r.m == map[s := key]
    decreases |s|, Footprint(null), 0
  {
    r := new Node(s[0]);
    AgreesNew(s, key);
    r.key := key;
    if s[0] != NUL {
      r.eqkid := InsTrie(null, s[1..], key);
      r.Repr := r.Repr + r.eqkid.Repr;
    }
    r.m := map[s := key];
  }

  method SetKey(p: Node, s: seq<char>, key: int)
    requires Terminated(s) && p.Valid() && s[0] == p.splitchar == NUL
    modifies p.Repr
    ensures p.Valid() && p.Repr == old(p.Repr) && p.m == old(p.m)[s := key]
  {
    AgreesPut(p.m, p.splitchar, p.key, Contents(p.lokid), Contents(p.eqkid), Contents(p.hikid), s, key);
    p.key := key;
    p.m := p.m[s := key];
  }

  /** Point a node at its children, one of them new. */
  method Adopt(p: Node, lokid: Node?, eqkid: Node?, hikid: Node?, ghost m: map<seq<char>, int>)
    requires (lokid != null ==> lokid.Valid()) && (hikid != null ==> hikid.Valid())
    requires eqkid != null ==> eqkid.Valid() && p.splitchar != NUL
    requires p !in Footprint(lokid) && p !in Footprint(eqkid) && p !in Footprint(hikid)
    requires Footprint(lokid) !! Footprint(eqkid) && Footprint(lokid) !! Footprint(hikid) && Footprint(eqkid) !! Footprint(hikid)
    requires Agrees(m, p.splitchar, p.key, Contents(lokid), Contents(eqkid), Contents(hikid))
    modifies p
    ensures p.Valid() && p.m == m && p.Repr == {p} + Footprint(lokid) + Footprint(eqkid) + Footprint(hikid)
  {
    p.lokid, p.eqkid, p.hikid := lokid, eqkid, hikid;
    p.Repr := {p} + Footprint(lokid) + Footprint(eqkid) + Footprint(hikid);
    p.m := m;
  }

  method InsLo(p: Node, s: seq<char>, key: int)
    requires Terminated(s) && p.Valid() && s[0] < p.splitchar
    modifies p.Repr
    ensures p.Valid() && fresh(p.Repr - old(p.Repr)) && p.m == old(p.m)[s := key]
    decreases |s|, p.Repr, 0
  {
    AgreesPut(p.m, p.splitchar, p.key, Contents(p.lokid), Contents(p.eqkid), Contents(p.hikid), s, key);
    ghost var eq, hi := Contents(p.eqkid), Contents(p.hikid);
    var kid := InsTrie(p.lokid, s, key);
    assert Contents(p.eqkid) == eq && Contents(p.hikid) == hi;
    Adopt(p, kid, p.eqkid, p.hikid, p.m[s := key]);
  }

  method InsEq(p: Node, s: seq<char>, key: int)
    requires Terminated(s) && p.Valid() && s[0] == p.splitchar != NUL
    modifies p.Repr
    ensures p.Valid() && fresh(p.Repr - old(p.Repr)) && p.m == old(p.m)[s := key]
    decreases |s|, p.Repr, 0
  {
    AgreesPut(p.m, p.splitchar, p.key, Contents(p.lokid), Contents(p.eqkid), Contents(p.hikid), s, key);
    ghost var lo, hi := Contents(p.lokid), Contents(p.hikid);
    var kid := InsTrie(p.eqkid, s[1..], key);
    assert Contents(p.lokid) == lo && Contents(p.hikid) == hi;
    Adopt(p, p.lokid, kid, p.hikid, p.m[s := key]);
  }

  method InsHi(p: Node, s: seq<char>, key: int)
    requires Terminated(s) && p.Valid() && s[0] > p.splitchar
    modifies p.Repr
    ensures p.Valid() && fresh(p.Repr - old(p.Repr)) && p.m == old(p.m)[s := key]
    decreases |s|, p.Repr, 0
  {
    AgreesPut(p.m, p.splitchar, p.key, Contents(p.lokid), Contents(p.eqkid), Contents(p.hikid), s, key);
    ghost var lo, eq := Contents(p.lokid), Contents(p.eqkid);
    var kid := InsTrie(p.hikid, s, key);
    assert Contents(p.lokid) == lo && Contents(p.eqkid) == eq;
    Adopt(p, p.lokid, p.eqkid, kid, p.m[s := key]);
  }

  method SearchTrie(root: Node?, s0: seq<char>) returns (res: Option<int>)
    requires Terminated(s0) && (root != null ==> root.Valid())
    ensures res == Get(Contents(root), s0)
  {
    var p, s := root, s0;
    while p != null
      invariant Terminated(s) && (p != null ==> p.Valid())
      invariant Get(Contents(root), s0) == Get(Contents(p), s)
      decreases Footprint(p)
    {
      assert Get(p.m, s) == Next(p.splitchar, p.key, Contents(p.lokid), Contents(p.eqkid), Contents(p.hikid), s);
      if s[0] < p.splitchar {
        p := p.lokid;
      } else if s[0] == p.splitchar {
        if s[0] == NUL {
          return Some(p.key);
        }
        s := s[1..];
        p := p.eqkid;
      } else {
        p := p.hikid;
      }
    }
    res := None;
  }
}
