/** Prototype linearisation: the breadth-first worklist with duplicates, keeping
    last occurrences, and attribute lookup along the result. */
module Protos {
  type Obj = nat

  /** The root object. */
  const OBJECT: Obj := 0

  /** Longest worklist proto_list accepts. */
  const CAP: nat := 101

  /** The prototypes of each object. A plain object stores its one prototype inline;
      the root has no prototype but itself. */
  datatype World = World(protos: Obj -> seq<Obj>, plain: Obj -> bool)

  ghost predicate WellFormed(g: World) {
    (forall o :: g.plain(o) ==> |g.protos(o)| == 1) && (forall p :: p in g.protos(OBJECT) ==> p == OBJECT)
  }

  datatype Error = Circular | SelfProto
  datatype Result<T> = Ok(value: T) | Err(error: Error)

  // ----- the worklist -----

  function Others(s: seq<Obj>): (r: seq<Obj>)
    ensures forall x :: x in r <==> x in s && x != OBJECT
  {
    if s == [] then [] else (if s[0] == OBJECT then [] else [s[0]]) + Others(s[1..])
  }

  /** Prototypes other than the root, in order. */
  function Kids(g: World, o: Obj): seq<Obj> {
    Others(g.protos(o))
  }

  /** The worklist after entries 0 to i - 1 have been expanded. */
  function Work(g: World, start: seq<Obj>, i: nat): seq<Obj> {
    if i == 0 then start
    else
      var w := Work(g, start, i - 1);
      if i - 1 < |w| then w + Kids(g, w[i - 1]) else w
  }

  /** The complete worklist: expanding all of w gives w. */
  ghost predicate Closed(g: World, start: seq<Obj>, w: seq<Obj>) {
    w == Work(g, start, |w|)
  }

  lemma {:induction false} WorkGrows(g: World, start: seq<Obj>, i: nat, j: nat)
    requires i <= j
    ensures Work(g, start, i) <= Work(g, start, j)
    decreases j
  {
    if i < j { WorkGrows(g, start, i, j - 1); }
  }

  /** There is at most one complete worklist; before it, entries are left to
      expand. */
  lemma {:induction false} WorkStays(g: World, start: seq<Obj>, w: seq<Obj>, j: nat)
    requires Closed(g, start, w) && |w| <= j
    ensures Work(g, start, j) == w
    decreases j
  {
    if |w| < j { WorkStays(g, start, w, j - 1); }
  }

  lemma ClosedUnique(g: World, start: seq<Obj>, w: seq<Obj>, v: seq<Obj>)
    requires Closed(g, start, w) && Closed(g, start, v)
    ensures w == v
  {
    if |w| <= |v| { WorkStays(g, start, w, |v|); } else { WorkStays(g, start, v, |w|); }
  }

  /** The children of entry i stand behind it. */
  lemma KidBehind(g: World, start: seq<Obj>, w: seq<Obj>, i: nat, x: Obj)
    requires Closed(g, start, w) && i < |w| && x in Kids(g, w[i])
    ensures exists j :: i < j < |w| && w[j] == x
  {
    var v := Work(g, start, i);
    WorkGrows(g, start, i, |w|);
    WorkGrows(g, start, i + 1, |w|);
    if |v| <= i {
      assert v == Work(g, start, |v|) by { WorkShort(g, start, i); }
      WorkStays(g, start, v, |w|);
    }
    var c :| 0 <= c < |Kids(g, w[i])| && Kids(g, w[i])[c] == x;
    assert Work(g, start, i + 1)[|v| + c] == x;
    assert w[|v| + c] == x;
  }

  /** A list with nothing left to expand is complete. */
  lemma {:induction false} WorkShort(g: World, start: seq<Obj>, i: nat)
    requires |Work(g, start, i)| <= i
    ensures Closed(g, start, Work(g, start, i))
    decreases i
  {
    if |Work(g, start, i)| < i && i - 1 >= |Work(g, start, i - 1)| {
      WorkShort(g, start, i - 1);
    }
  }

  /** Every entry behind the start is a child of an earlier one. */
  lemma {:induction false} ParentBefore(g: World, start: seq<Obj>, i: nat, j: nat)
    requires |start| <= j < |Work(g, start, i)|
    ensures exists m :: 0 <= m < j && Work(g, start, i)[j] in Kids(g, Work(g, start, i)[m])
    decreases i
  {
    if i > 0 {
      var u, w := Work(g, start, i - 1), Work(g, start, i);
      if j < |u| {
        ParentBefore(g, start, i - 1, j);
        var m :| 0 <= m < j && u[j] in Kids(g, u[m]);
        assert w[j] in Kids(g, w[m]);
      } else {
        assert i - 1 < |u| && w[j] == Kids(g, u[i - 1])[j - |u|];
        assert w[j] in Kids(g, w[i - 1]);
      }
    }
  }

  // ----- keeping last occurrences -----

  /** Entry i does not occur again. */
  ghost predicate Last(w: seq<Obj>, i: nat)
    requires i < |w|
  {
    forall m :: i < m < |w| ==> w[m] != w[i]
  }

  function KeepLast(w: seq<Obj>): (r: seq<Obj>)
    ensures forall x :: x in r <==> x in w
  {
    if w == [] then [] else (if w[0] in w[1..] then [] else [w[0]]) + KeepLast(w[1..])
  }

  lemma KeepLastStep(w: seq<Obj>, i: nat)
    requires i < |w|
    ensures KeepLast(w[i..]) == (if w[i] in w[i + 1..] then [] else [w[i]]) + KeepLast(w[i + 1..])
  {
    assert w[i..][1..] == w[i + 1..];
  }

  ghost predicate Before(r: seq<Obj>, x: Obj, y: Obj) {
    exists i, j :: 0 <= i < j < |r| && r[i] == x && r[j] == y
  }

  ghost predicate NoDup(r: seq<Obj>) {
    forall i, j :: 0 <= i < j < |r| ==> r[i] != r[j]
  }

  lemma {:induction false} KeepLastOnce(w: seq<Obj>)
    ensures NoDup(KeepLast(w))
    decreases |w|
  {
    if w != [] { KeepLastOnce(w[1..]); }
  }

  /** Order of last occurrences. */
  lemma {:induction false} KeepLastOrder(w: seq<Obj>, i: nat, j: nat)
    requires i < j < |w| && Last(w, i) && w[j] != w[i]
    ensures Before(KeepLast(w), w[i], w[j])
    decreases |w|
  {
    var r, t := KeepLast(w), KeepLast(w[1..]);
    if i == 0 {
      assert w[j] in w[1..] by { assert w[1..][j - 1] == w[j]; }
      var n :| 0 <= n < |t| && t[n] == w[j];
      assert r[0] == w[0] && r[n + 1] == w[j];
    } else {
      var w1 := w[1..];
      forall m | i - 1 < m < |w1|
        ensures w1[m] != w1[i - 1]
      {
        assert w[m + 1] != w[i];
      }
      KeepLastOrder(w1, i - 1, j - 1);
      var a, b :| 0 <= a < b < |t| && t[a] == w[i] && t[b] == w[j];
      var d := |r| - |t|;
      assert r[d + a] == w[i] && r[d + b] == w[j];
    }
  }

  lemma LastOf(w: seq<Obj>, x: Obj) returns (i: nat)
    requires x in w
    ensures i < |w| && w[i] == x && Last(w, i)
  {
    i :| 0 <= i < |w| && w[i] == x;
    while exists m :: i < m < |w| && w[m] == x
      invariant 0 <= i < |w| && w[i] == x
      decreases |w| - i
    {
      var m :| i < m < |w| && w[m] == x;
      i := m;
    }
  }

  // ----- the linearisation -----

  /** The linearisation of obj, given its complete worklist. */
  function Order(w: seq<Obj>): seq<Obj> {
    KeepLast(w + [OBJECT])
  }

  /** obj's ancestors, the root apart. */
  ghost predicate Path(g: World, p: seq<Obj>) {
    |p| > 0 && forall i :: 0 <= i < |p| - 1 ==> p[i + 1] in Kids(g, p[i])
  }

  ghost predicate Reaches(g: World, x: Obj, y: Obj) {
    exists p :: Path(g, p) && p[0] == x && p[|p| - 1] == y
  }

  /** An object comes before each of its prototypes. */
  lemma ChildFirst(g: World, obj: Obj, w: seq<Obj>, x: Obj, p: Obj)
    requires WellFormed(g) && Closed(g, [obj], w) && x in Order(w) && p in g.protos(x) && x != OBJECT
    ensures Before(Order(w), x, p)
  {
    var v := w + [OBJECT];
    assert x in w;
    var i := LastOf(w, x);
    assert Last(v, i);
    if p == OBJECT {
      assert v[|w|] == OBJECT;
      KeepLastOrder(v, i, |w|);
    } else {
      KidBehind(g, [obj], w, i, p);
      var j :| i < j < |w| && w[j] == p;
      assert v[j] == p && v[i] == x;
      KeepLastOrder(v, i, j);
    }
  }

  /** The root comes last. */
  lemma RootLast(w: seq<Obj>)
    ensures Order(w) != [] && Order(w)[|Order(w)| - 1] == OBJECT
  {
    KeepLastEnd(w + [OBJECT]);
  }

  lemma {:induction false} KeepLastEnd(w: seq<Obj>)
    requires w != []
    ensures KeepLast(w) != [] && KeepLast(w)[|KeepLast(w)| - 1] == w[|w| - 1]
    decreases |w|
  {
    var t := KeepLast(w[1..]);
    var head := if w[0] in w[1..] then [] else [w[0]];
    assert KeepLast(w) == head + t;
    if |w| > 1 {
      KeepLastEnd(w[1..]);
      assert w[1..][|w[1..]| - 1] == w[|w| - 1];
    } else {
      assert w[1..] == [] && t == [];
    }
  }

  /** The list holds exactly obj, what it reaches, and the root, each once. */
  lemma OrderIsReachable(g: World, obj: Obj, w: seq<Obj>)
    requires Closed(g, [obj], w)
    ensures NoDup(Order(w))
    ensures forall x :: x in Order(w) <==> x == OBJECT || Reaches(g, obj, x)
  {
    KeepLastOnce(w + [OBJECT]);
    WorkGrows(g, [obj], 0, |w|);
    assert w[0] == obj;
    forall x
      ensures x in Order(w) <==> x == OBJECT || Reaches(g, obj, x)
    {
      if x in w {
        var j :| 0 <= j < |w| && w[j] == x;
        ReachesEntry(g, obj, |w|, j);
      }
      if Reaches(g, obj, x) {
        var p :| Path(g, p) && p[0] == obj && p[|p| - 1] == x;
        PathInside(g, obj, w, p, |p| - 1);
      }
    }
  }

  /** Whatever is on the worklist, complete or not, is reachable. */
  lemma {:induction false} ReachesEntry(g: World, obj: Obj, i: nat, j: nat)
    requires j < |Work(g, [obj], i)|
    ensures Reaches(g, obj, Work(g, [obj], i)[j])
    decreases j
  {
    var w := Work(g, [obj], i);
    WorkGrows(g, [obj], 0, i);
    if j == 0 {
      assert Path(g, [obj]);
    } else {
      ParentBefore(g, [obj], i, j);
      var m :| 0 <= m < j && w[j] in Kids(g, w[m]);
      ReachesEntry(g, obj, i, m);
      var p :| Path(g, p) && p[0] == obj && p[|p| - 1] == w[m];
      LongerPath(g, p, w[j]);
    }
  }

  lemma ReachesFound(g: World, obj: Obj, i: nat, x: Obj)
    requires x in Work(g, [obj], i)
    ensures Reaches(g, obj, x)
  {
    var j :| 0 <= j < |Work(g, [obj], i)| && Work(g, [obj], i)[j] == x;
    ReachesEntry(g, obj, i, j);
  }

  lemma LongerPath(g: World, p: seq<Obj>, x: Obj)
    requires Path(g, p) && x in Kids(g, p[|p| - 1])
    ensures Path(g, p + [x])
  {
  }

  lemma {:induction false} PathInside(g: World, obj: Obj, w: seq<Obj>, p: seq<Obj>, i: nat)
    requires Closed(g, [obj], w) && w != [] && w[0] == obj && Path(g, p) && p[0] == obj && i < |p|
    ensures p[i] in w
    decreases i
  {
    if i > 0 {
      PathInside(g, obj, w, p, i - 1);
      var m :| 0 <= m < |w| && w[m] == p[i - 1];
      KidBehind(g, [obj], w, m, p[i]);
    }
  }

  /** A worklist that completes shows that no object below obj is its own ancestor;
      around a cycle it never does. */
  lemma CompleteMeansAcyclic(g: World, obj: Obj, w: seq<Obj>, p: seq<Obj>)
    requires Closed(g, [obj], w) && Path(g, p) && |p| > 1 && p[0] in w
    ensures p[|p| - 1] != p[0]
  {
    var i := LastOf(w, p[0]);
    var j := FurtherAlong(g, obj, w, p, |p| - 1, i);
  }

  lemma {:induction false} FurtherAlong(g: World, obj: Obj, w: seq<Obj>, p: seq<Obj>, n: nat, i: nat) returns (j: nat)
    requires Closed(g, [obj], w) && Path(g, p) && n < |p| && i < |w| && w[i] == p[0]
    ensures i <= j < |w| && w[j] == p[n] && (n > 0 ==> i < j)
    decreases n
  {
    if n == 0 {
      j := i;
    } else {
      var m := FurtherAlong(g, obj, w, p, n - 1, i);
      KidBehind(g, [obj], w, m, p[n]);
      j :| m < j < |w| && w[j] == p[n];
    }
  }

  // ----- acyclic graphs have a complete worklist -----

  /** Every object below obj ranks above its prototypes: there is no cycle. */
  ghost predicate Ranked(g: World, obj: Obj, rank: Obj -> nat) {
    forall x, k {:trigger Reaches(g, obj, x), rank(k)} :: Reaches(g, obj, x) && k in Kids(g, x) ==> rank(k) < rank(x)
  }

  /** Entries a ranked object puts on its worklist: itself and what its prototypes
      put there, as often as they are listed. */
  function Entries(g: World, rank: Obj -> nat, o: Obj): (r: nat)
    ensures r > 0
    decreases rank(o), 1, 0
  {
    if forall k :: k in Kids(g, o) ==> rank(k) < rank(o) then 1 + EntriesOf(g, rank, Kids(g, o), rank(o)) else 1
  }

  function EntriesOf(g: World, rank: Obj -> nat, s: seq<Obj>, bound: nat): nat
    requires forall k :: k in s ==> rank(k) < bound
    decreases bound, 0, |s|
  {
    if s == [] then 0 else Entries(g, rank, s[0]) + EntriesOf(g, rank, s[1..], bound)
  }

  /** The same sum without a bound. */
  function Sum(g: World, rank: Obj -> nat, s: seq<Obj>): nat {
    if s == [] then 0 else Entries(g, rank, s[0]) + Sum(g, rank, s[1..])
  }

  lemma {:induction false} SumIs(g: World, rank: Obj -> nat, s: seq<Obj>, bound: nat)
    requires forall k :: k in s ==> rank(k) < bound
    ensures EntriesOf(g, rank, s, bound) == Sum(g, rank, s)
    decreases |s|
  {
    if s != [] { SumIs(g, rank, s[1..], bound); }
  }

  lemma {:induction false} SumConcat(g: World, rank: Obj -> nat, s: seq<Obj>, t: seq<Obj>)
    ensures Sum(g, rank, s + t) == Sum(g, rank, s) + Sum(g, rank, t)
    decreases |s|
  {
    if s == [] {
      assert s + t == t;
    } else {
      assert (s + t)[1..] == s[1..] + t;
      SumConcat(g, rank, s[1..], t);
    }
  }

  /** What the entries from i on put on the worklist. */
  function SumFrom(g: World, rank: Obj -> nat, w: seq<Obj>, i: nat): nat
    requires i <= |w|
  {
    Sum(g, rank, w[i..])
  }

  /** Expanding an entry puts exactly its children's entries in its place. */
  lemma {:induction false} Remaining(g: World, obj: Obj, rank: Obj -> nat, i: nat)
    requires Ranked(g, obj, rank)
    ensures var w := Work(g, [obj], i);
            if i <= |w| then i + SumFrom(g, rank, w, i) == Entries(g, rank, obj) else |w| == Entries(g, rank, obj)
    decreases i
  {
    if i == 0 {
      OnlyFrom(g, rank, obj);
    } else {
      Remaining(g, obj, rank, i - 1);
      var u := Work(g, [obj], i - 1);
      if i - 1 < |u| {
        ReachesEntry(g, obj, i - 1, i - 1);
        Expanded(g, obj, rank, u, i - 1);
      } else if i - 1 == |u| {
        NothingFrom(g, rank, u);
      }
    }
  }

  lemma OnlyFrom(g: World, rank: Obj -> nat, o: Obj)
    ensures SumFrom(g, rank, [o], 0) == Entries(g, rank, o)
  {
    assert [o][0..] == [o] && [o][1..] == [];
    assert Sum(g, rank, [o]) == Entries(g, rank, o) + Sum(g, rank, []);
  }

  lemma NothingFrom(g: World, rank: Obj -> nat, u: seq<Obj>)
    ensures SumFrom(g, rank, u, |u|) == 0
  {
  }

  lemma Expanded(g: World, obj: Obj, rank: Obj -> nat, u: seq<Obj>, i: nat)
    requires Ranked(g, obj, rank) && i < |u| && Reaches(g, obj, u[i])
    ensures 1 + SumFrom(g, rank, u + Kids(g, u[i]), i + 1) == SumFrom(g, rank, u, i)
  {
    var x, kids := u[i], Kids(g, u[i]);
    SumIs(g, rank, kids, rank(x));
    assert (u + kids)[i + 1..] == u[i + 1..] + kids && u[i..][0] == x && u[i..][1..] == u[i + 1..];
    SumConcat(g, rank, u[i + 1..], kids);
  }

  /** Without a cycle the worklist completes, with one entry for every way down from
      obj. */
  lemma RankedCompletes(g: World, obj: Obj, rank: Obj -> nat) returns (w: seq<Obj>)
    requires Ranked(g, obj, rank)
    ensures Closed(g, [obj], w) && |w| == Entries(g, rank, obj)
  {
    var n := Entries(g, rank, obj);
    w := Work(g, [obj], n);
    Remaining(g, obj, rank, n);
    WorkShort(g, [obj], n);
  }

  /** Where x stands last, counted from the end; 0 when it does not stand in w. */
  function FromEnd(w: seq<Obj>, x: Obj): nat {
    if w == [] then 0 else if x in w[1..] then FromEnd(w[1..], x) else if w[0] == x then |w| else 0
  }

  lemma {:induction false} FromEndAt(w: seq<Obj>, i: nat)
    requires i < |w|
    ensures FromEnd(w, w[i]) <= |w| - i && (Last(w, i) ==> FromEnd(w, w[i]) == |w| - i)
    decreases |w|
  {
    if i > 0 {
      assert w[1..][i - 1] == w[i];
      FromEndAt(w[1..], i - 1);
      if Last(w, i) {
        forall m | i - 1 < m < |w[1..]|
          ensures w[1..][m] != w[i]
        {
          assert w[m + 1] != w[i];
        }
      }
    } else if w[0] in w[1..] {
      var j :| 0 <= j < |w[1..]| && w[1..][j] == w[0];
      FromEndAt(w[1..], j);
      assert w[j + 1] == w[0];
    }
  }

  /** A complete worklist ranks what is below obj: by the last place on the list. */
  lemma CompleteRanks(g: World, obj: Obj, w: seq<Obj>) returns (rank: Obj -> nat)
    requires Closed(g, [obj], w)
    ensures Ranked(g, obj, rank)
  {
    rank := x => FromEnd(w, x);
    WorkGrows(g, [obj], 0, |w|);
    forall x, k | Reaches(g, obj, x) && k in Kids(g, x)
      ensures FromEnd(w, k) < FromEnd(w, x)
    {
      var p :| Path(g, p) && p[0] == obj && p[|p| - 1] == x;
      PathInside(g, obj, w, p, |p| - 1);
      var i := LastOf(w, x);
      KidBehind(g, [obj], w, i, k);
      var j :| i < j < |w| && w[j] == k;
      FromEndAt(w, i);
      FromEndAt(w, j);
    }
  }

  /** The worklist completes if and only if there is no cycle below obj. */
  lemma CompleteIffRanked(g: World, obj: Obj)
    ensures (exists w :: Closed(g, [obj], w)) <==> (exists rank :: Ranked(g, obj, rank))
  {
    if w :| Closed(g, [obj], w) {
      var rank := CompleteRanks(g, obj, w);
    }
    if rank :| Ranked(g, obj, rank) {
      var w := RankedCompletes(g, obj, rank);
    }
  }

  /** The circularity error: there is a cycle below obj, or there are more than CAP
      ways down from it. */
  lemma CircularIff(g: World, obj: Obj)
    ensures |Work(g, [obj], CAP)| <= CAP <==> exists rank :: Ranked(g, obj, rank) && Entries(g, rank, obj) <= CAP
  {
    if |Work(g, [obj], CAP)| <= CAP {
      WorkShort(g, [obj], CAP);
      var rank := CompleteRanks(g, obj, Work(g, [obj], CAP));
      var w := RankedCompletes(g, obj, rank);
      ClosedUnique(g, [obj], w, Work(g, [obj], CAP));
    }
    if rank :| Ranked(g, obj, rank) && Entries(g, rank, obj) <= CAP {
      var w := RankedCompletes(g, obj, rank);
      WorkStays(g, [obj], w, CAP);
    }
  }

  // ----- the order of several prototypes -----

  /** Entry k of r is entry idx[k] of s, and not the root. */
  ghost predicate Chosen(s: seq<Obj>, r: seq<Obj>, idx: seq<nat>) {
    |idx| == |r| && forall k :: 0 <= k < |r| ==> idx[k] < |s| && s[idx[k]] == r[k] && r[k] != OBJECT
  }

  ghost predicate Rising(idx: seq<nat>) {
    forall k, m :: 0 <= k < m < |idx| ==> idx[k] < idx[m]
  }

  ghost predicate NoneMissing(s: seq<Obj>, idx: seq<nat>) {
    forall j :: 0 <= j < |s| && s[j] != OBJECT ==> j in idx
  }

  /** idx picks the entries of s other than the root, in order. */
  ghost predicate Picks(s: seq<Obj>, r: seq<Obj>, idx: seq<nat>) {
    Chosen(s, r, idx) && Rising(idx) && NoneMissing(s, idx)
  }

  /** The prototypes come in the order the object lists them, and none but the root is
      dropped. */
  lemma KidsInOrder(g: World, o: Obj) returns (idx: seq<nat>)
    ensures Picks(g.protos(o), Kids(g, o), idx)
  {
    idx := OthersInOrder(g.protos(o));
  }

  lemma {:induction false} OthersInOrder(s: seq<Obj>) returns (idx: seq<nat>)
    ensures Picks(s, Others(s), idx)
    decreases |s|
  {
    idx := [];
    if s != [] {
      var rest := OthersInOrder(s[1..]);
      assert s == [s[0]] + s[1..];
      var head: seq<nat> := if s[0] == OBJECT then [] else [0];
      var kept := if s[0] == OBJECT then [] else [s[0]];
      idx := head + Shifted(rest);
      assert Others(s) == kept + Others(s[1..]);
      ChosenOneMore(s[0], s[1..], Others(s[1..]), rest, head, kept);
      RisingOneMore(rest, head);
      NoneMissingOneMore(s[0], s[1..], rest, head);
    }
  }

  function Shifted(idx: seq<nat>): seq<nat> {
    seq(|idx|, k requires 0 <= k < |idx| => idx[k] + 1)
  }

  lemma ChosenOneMore(c: Obj, s: seq<Obj>, r: seq<Obj>, idx: seq<nat>, head: seq<nat>, kept: seq<Obj>)
    requires Chosen(s, r, idx) && if c == OBJECT then head == [] && kept == [] else head == [0] && kept == [c]
    ensures Chosen([c] + s, kept + r, head + Shifted(idx))
  {
    forall k | |kept| <= k < |kept + r|
      ensures (head + Shifted(idx))[k] == idx[k - |kept|] + 1 && (kept + r)[k] == r[k - |kept|]
    {
    }
  }

  lemma RisingOneMore(idx: seq<nat>, head: seq<nat>)
    requires Rising(idx) && (head == [] || head == [0])
    ensures Rising(head + Shifted(idx))
  {
  }

  lemma NoneMissingOneMore(c: Obj, s: seq<Obj>, idx: seq<nat>, head: seq<nat>)
    requires NoneMissing(s, idx) && head == if c == OBJECT then [] else [0]
    ensures NoneMissing([c] + s, head + Shifted(idx))
  {
    var u, next := [c] + s, head + Shifted(idx);
    forall j | 0 <= j < |u| && u[j] != OBJECT
      ensures j in next
    {
      if j > 0 {
        assert s[j - 1] != OBJECT;
        var k :| 0 <= k < |idx| && idx[k] == j - 1;
        assert next[|head| + k] == j;
      } else {
        assert next[0] == j;
      }
    }
  }

  /** The worklist starts with obj and its prototypes. */
  lemma StartOfList(g: World, obj: Obj, w: seq<Obj>)
    requires Closed(g, [obj], w)
    ensures [obj] + Kids(g, obj) <= w
  {
    WorkGrows(g, [obj], 0, |w|);
    WorkGrows(g, [obj], 1, |w|);
    assert Work(g, [obj], 0) == [obj];
  }

  /** Behind them stand prototypes of what is below obj. */
  lemma Behind(g: World, obj: Obj, w: seq<Obj>, m: nat) returns (n: nat)
    requires Closed(g, [obj], w) && |Kids(g, obj)| < m < |w|
    ensures 0 < n < m && w[m] in Kids(g, w[n])
  {
    FromKids(g, obj, |w| - 1);
    n := ParentAt(g, Kids(g, obj), Work(g, Kids(g, obj), |w| - 1), |w| - 1, m - 1, obj, w);
  }

  lemma ParentAt(g: World, kids: seq<Obj>, v: seq<Obj>, i: nat, j: nat, obj: Obj, w: seq<Obj>) returns (n: nat)
    requires v == Work(g, kids, i) && |kids| <= j < |v| && w == [obj] + v
    ensures 0 < n < j + 1 && w[j + 1] in Kids(g, w[n])
  {
    ParentBefore(g, kids, i, j);
    var k :| 0 <= k < j && v[j] in Kids(g, v[k]);
    n := k + 1;
  }

  lemma BelowAt(g: World, obj: Obj, w: seq<Obj>, n: nat)
    requires Closed(g, [obj], w) && 0 < n < |w|
    ensures w[n] != obj && Reaches(g, obj, w[n])
  {
    ReachesEntry(g, obj, |w|, n);
    NotAgain(g, obj, w, n);
  }

  /** The worklist from o is o and the worklist from its prototypes. */
  lemma {:induction false} FromKids(g: World, o: Obj, i: nat)
    ensures Work(g, [o], i + 1) == [o] + Work(g, Kids(g, o), i)
    decreases i
  {
    if i == 0 {
      assert Work(g, [o], 0) == [o];
    } else {
      FromKids(g, o, i - 1);
    }
  }

  /** Nothing is its own ancestor, so the first entry does not come again. */
  lemma NotAgain(g: World, o: Obj, w: seq<Obj>, j: nat)
    requires Closed(g, [o], w) && 0 < j < |w|
    ensures w[0] == o && w[j] != o
  {
    WorkGrows(g, [o], 0, |w|);
    assert w[0] == o && o in w;
    ParentBefore(g, [o], |w|, j);
    var m :| 0 <= m < j && w[j] in Kids(g, w[m]);
    ReachesEntry(g, o, |w|, m);
    var p :| Path(g, p) && p[0] == o && p[|p| - 1] == w[m];
    LongerPath(g, p, w[j]);
    CompleteMeansAcyclic(g, o, w, p + [w[j]]);
  }

  /** Of two prototypes of obj the one listed first comes first, unless it is met
      again: listed once more, or a prototype of something further down. */
  lemma SiblingsInOrder(g: World, obj: Obj, w: seq<Obj>, a: nat, b: nat)
    requires Closed(g, [obj], w) && a < b < |g.protos(obj)|
    requires Single(g, obj, a) && g.protos(obj)[b] != OBJECT
    requires forall x :: x != obj && Reaches(g, obj, x) ==> g.protos(obj)[a] !in Kids(g, x)
    ensures Before(Order(w), g.protos(obj)[a], g.protos(obj)[b])
  {
    var i, j := Places(g, obj, a, b);
    KidAt(g, obj, w, i);
    KidAt(g, obj, w, j);
    NotFurtherDown(g, obj, w, g.protos(obj)[a], i);
    InOrder(w, 1 + i, 1 + j);
  }

  lemma KidAt(g: World, obj: Obj, w: seq<Obj>, i: nat)
    requires Closed(g, [obj], w) && i < |Kids(g, obj)|
    ensures 1 + i < |w| && w[1 + i] == Kids(g, obj)[i]
  {
    StartOfList(g, obj, w);
    assert ([obj] + Kids(g, obj))[1 + i] == Kids(g, obj)[i];
  }

  /** An entry that does not come again stands before those behind it. */
  lemma InOrder(w: seq<Obj>, k: nat, m: nat)
    requires k < m < |w| && w[k] != OBJECT && forall n :: k < n < |w| ==> w[n] != w[k]
    ensures Before(Order(w), w[k], w[m])
  {
    var v := w + [OBJECT];
    assert v[k] == w[k] && v[m] == w[m] && Last(v, k);
    KeepLastOrder(v, k, m);
  }

  /** Prototype a of obj is not the root and is listed once. */
  ghost predicate Single(g: World, obj: Obj, a: nat)
    requires a < |g.protos(obj)|
  {
    var ps := g.protos(obj);
    ps[a] != OBJECT && forall c :: 0 <= c < |ps| && c != a ==> ps[c] != ps[a]
  }

  /** Where prototypes a and b of obj come among its children. */
  lemma Places(g: World, obj: Obj, a: nat, b: nat) returns (i: nat, j: nat)
    requires a < b < |g.protos(obj)| && Single(g, obj, a) && g.protos(obj)[b] != OBJECT
    ensures i < j < |Kids(g, obj)| && Kids(g, obj)[i] == g.protos(obj)[a] && Kids(g, obj)[j] == g.protos(obj)[b]
    ensures forall m :: i < m < |Kids(g, obj)| ==> Kids(g, obj)[m] != g.protos(obj)[a]
  {
    var idx := KidsInOrder(g, obj);
    assert a in idx && b in idx;
    i :| i < |idx| && idx[i] == a;
    j :| j < |idx| && idx[j] == b;
    assert !(j < i) && i != j;
    forall m | i < m < |Kids(g, obj)|
      ensures Kids(g, obj)[m] != g.protos(obj)[a]
    {
      assert idx[i] < idx[m];
    }
  }

  lemma NotFurtherDown(g: World, obj: Obj, w: seq<Obj>, p: Obj, i: nat)
    requires Closed(g, [obj], w) && i < |Kids(g, obj)| && forall m :: i < m < |Kids(g, obj)| ==> Kids(g, obj)[m] != p
    requires forall x :: x != obj && Reaches(g, obj, x) ==> p !in Kids(g, x)
    ensures forall m :: 1 + i < m < |w| ==> w[m] != p
  {
    forall m | 1 + i < m < |w|
      ensures w[m] != p
    {
      if m <= |Kids(g, obj)| {
        KidAt(g, obj, w, m - 1);
      } else {
        var n := Behind(g, obj, w, m);
        BelowAt(g, obj, w, n);
      }
    }
  }

  lemma {:induction false} AllKept(s: seq<Obj>)
    requires NoDup(s)
    ensures KeepLast(s) == s
    decreases |s|
  {
    if s != [] {
      AllKept(s[1..]);
      assert s == [s[0]] + s[1..] && s[0] !in s[1..];
    }
  }

  lemma {:induction false} NoneDropped(s: seq<Obj>)
    requires OBJECT !in s
    ensures Others(s) == s
    decreases |s|
  {
    if s != [] {
      NoneDropped(s[1..]);
      assert s == [s[0]] + s[1..] && s[0] in s;
    }
  }

  /** Different prototypes with nothing but the root above them: the list is obj, the
      prototypes as listed, the root. */
  lemma FlatList(g: World, obj: Obj)
    requires obj != OBJECT && OBJECT !in g.protos(obj) && obj !in g.protos(obj) && NoDup(g.protos(obj))
    requires forall p :: p in g.protos(obj) ==> Kids(g, p) == []
    ensures var w := [obj] + g.protos(obj); Closed(g, [obj], w) && Order(w) == w + [OBJECT]
  {
    var ps := g.protos(obj);
    NoneDropped(ps);
    assert Work(g, [obj], 1) == [obj] + ps by { assert Work(g, [obj], 0) == [obj]; }
    FlatWork(g, obj, 1 + |ps|);
    AllKept([obj] + ps + [OBJECT]);
  }

  lemma {:induction false} FlatWork(g: World, obj: Obj, i: nat)
    requires 1 <= i && Work(g, [obj], 1) == [obj] + g.protos(obj)
    requires forall p :: p in g.protos(obj) ==> Kids(g, p) == []
    ensures Work(g, [obj], i) == [obj] + g.protos(obj)
    decreases i
  {
    if i > 1 {
      FlatWork(g, obj, i - 1);
      var w := [obj] + g.protos(obj);
      if i - 1 < |w| { assert w[i - 1] in g.protos(obj); }
    }
  }
}
