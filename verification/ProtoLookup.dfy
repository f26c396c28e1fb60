/** proto_list, has_proto and get_proto_attr: worklists grown and nulled in place,
    proved against the linearisation. */
module ProtoLookup {
  import opened Protos

  datatype Option<T> = None | Some(value: T)

  /** An entry of a worklist, or the hole left by an earlier duplicate. */
  datatype Slot = Gone | Item(o: Obj)

  // ----- growing the worklist -----

  method AppendKids(g: World, obj: Obj, list0: seq<Obj>) returns (list: seq<Obj>)
    ensures list == list0 + Kids(g, obj)
  {
    list := list0;
    var ps := g.protos(obj);
    var j := 0;
    assert ps[0..] == ps;
    while j < |ps|
      invariant j <= |ps| && list + Others(ps[j..]) == list0 + Kids(g, obj)
    {
      assert ps[j..][1..] == ps[j + 1..];
      if ps[j] != OBJECT {
        list := list + [ps[j]];
      }
      j := j + 1;
    }
  }

  /** Expand entry after entry; give up once entry `last` has been expanded. */
  method Grow(g: World, start: seq<Obj>, last: nat) returns (ok: bool, list: seq<Obj>)
    ensures list == Work(g, start, if ok then |list| else last + 1)
    ensures ok <==> |Work(g, start, last)| <= last
    ensures ok ==> Closed(g, start, list) && |list| <= last
  {
    list := start;
    var i := 0;
    while i < |list|
      invariant i <= last && list == Work(g, start, i) && i <= |list|
      decreases last - i
    {
      WorkGrows(g, start, i, last);
      list := AppendKids(g, list[i], list);
      if i == last {
        return false, list;
      }
      i := i + 1;
    }
    WorkStays(g, start, list, last);
    ok := true;
  }

  // ----- nulling duplicates -----

  /** Entry i occurs again behind both i and j. */
  ghost predicate Later(w: seq<Obj>, i: int, j: int)
    requires 0 <= i < |w|
  {
    exists m :: i < m < |w| && j < m && w[m] == w[i]
  }

  ghost predicate Nulled(w: seq<Obj>, items: seq<Slot>, j: int) {
    |items| == |w| && forall i :: 0 <= i < |w| ==> items[i] == if Later(w, i, j) then Gone else Item(w[i])
  }

  /** Null what equals entry j before it. */
  method NullBefore(w: seq<Obj>, items0: seq<Slot>, j: nat) returns (items: seq<Slot>)
    requires 0 < j < |w| && Nulled(w, items0, j)
    ensures Nulled(w, items, j - 1)
  {
    items := items0;
    if items[j] != Gone {
      var i := 0;
      while i < j
        invariant i <= j && |items| == |w|
        invariant forall k :: i <= k < |w| ==> items[k] == items0[k]
        invariant forall k :: 0 <= k < i ==> items[k] == if Later(w, k, j) || w[k] == w[j] then Gone else Item(w[k])
      {
        if items[i] == items[j] {
          items := items[i := Gone];
        }
        i := i + 1;
      }
    }
    forall i | 0 <= i < |w|
      ensures items[i] == if Later(w, i, j - 1) then Gone else Item(w[i])
    {
      if Later(w, i, j - 1) && !Later(w, i, j) { assert i < j && w[j] == w[i]; }
      if i < j && w[i] == w[j] { assert Later(w, i, j - 1); }
      if Later(w, j, j) && i < j && w[i] == w[j] {
        var m :| j < m < |w| && w[m] == w[j];
        assert Later(w, i, j);
      }
    }
  }

  lemma LaterIsIn(w: seq<Obj>, i: nat)
    requires i < |w|
    ensures Later(w, i, 0) <==> w[i] in w[i + 1..]
  {
    if w[i] in w[i + 1..] {
      var m :| 0 <= m < |w[i + 1..]| && w[i + 1..][m] == w[i];
      assert w[i + 1 + m] == w[i];
    }
    if Later(w, i, 0) {
      var m :| i < m < |w| && w[m] == w[i];
      assert w[i + 1..][m - i - 1] == w[i];
    }
  }

  /** list holds what is left of the first i entries. */
  ghost predicate Listed(w: seq<Obj>, i: nat, list: seq<Obj>) {
    i <= |w| && list + KeepLast(w[i..]) == KeepLast(w)
  }

  lemma ListedStart(w: seq<Obj>)
    ensures Listed(w, 0, [])
  {
    assert w[0..] == w && [] + KeepLast(w) == KeepLast(w);
  }

  lemma ListedStep(w: seq<Obj>, items: seq<Slot>, i: nat, list: seq<Obj>)
    requires Nulled(w, items, 0) && i < |w| && Listed(w, i, list)
    ensures Listed(w, i + 1, if items[i] != Gone then list + [items[i].o] else list)
  {
    KeepLastStep(w, i);
    LaterIsIn(w, i);
    var rest := KeepLast(w[i + 1..]);
    if items[i] == Gone { Regroup(list, [], rest); } else { Regroup(list, [w[i]], rest); }
  }

  lemma Regroup(a: seq<Obj>, b: seq<Obj>, c: seq<Obj>)
    ensures a + (b + c) == (a + b) + c && a + [] == a
  {
  }

  lemma ListedEnd(w: seq<Obj>, list: seq<Obj>)
    requires Listed(w, |w|, list)
    ensures list == KeepLast(w)
  {
    assert w[|w|..] == [] && list + [] == list;
  }

  method ListItems(w: seq<Obj>, items: seq<Slot>) returns (list: seq<Obj>)
    requires Nulled(w, items, 0)
    ensures list == KeepLast(w)
  {
    list := [];
    var i := 0;
    ListedStart(w);
    while i < |items|
      invariant i <= |w| && Listed(w, i, list)
    {
      ListedStep(w, items, i, list);
      if items[i] != Gone {
        list := list + [items[i].o];
      }
      i := i + 1;
    }
    ListedEnd(w, list);
  }

  /** Null all but the last occurrence of each entry and list what is left. */
  method KeepLasts(w: seq<Obj>) returns (list: seq<Obj>)
    ensures list == KeepLast(w)
  {
    var items := seq(|w|, i requires 0 <= i < |w| => Item(w[i]));
    var j := |w| - 1;
    while j > 0
      invariant j < |w| && (j >= 0 || w == []) && Nulled(w, items, j)
    {
      items := NullBefore(w, items, j);
      j := j - 1;
    }
    list := ListItems(w, items);
  }

  // ----- the operations -----

  method ProtoList(g: World, obj: Obj) returns (r: Result<seq<Obj>>)
    ensures r == if |Work(g, [obj], CAP)| <= CAP then Ok(Order(Work(g, [obj], CAP))) else Err(Circular)
    ensures r.Ok? ==> Closed(g, [obj], Work(g, [obj], CAP))
  {
    var ok, list := Grow(g, [obj], CAP);
    if !ok {
      return Err(Circular);
    }
    WorkStays(g, [obj], list, CAP);
    list := KeepLasts(list + [OBJECT]);
    r := Ok(list);
  }

  /** The breadth-first search of has_proto: it stops at the first sight of the
      target. */
  method FindProto(g: World, obj: Obj, target: Obj) returns (r: Result<bool>)
    requires target != obj
    ensures r.Ok? && r.value ==> Reaches(g, obj, target) && (|Work(g, [obj], CAP)| <= CAP ==> target in Work(g, [obj], CAP))
    ensures r.Ok? && !r.value ==> target !in Work(g, [obj], CAP)
    ensures r.Err? ==> |Work(g, [obj], CAP)| > CAP
  {
    var list, i := [obj], 0;
    while i < |list|
      invariant i <= CAP && list == Work(g, [obj], i) && i <= |list| && target !in list
      decreases CAP - i
    {
      var kids := AppendKids(g, list[i], []);
      list := list + kids;
      assert list == Work(g, [obj], i + 1);
      if target in kids {
        ReachesFound(g, obj, i + 1, target);
        if i < CAP { WorkGrows(g, [obj], i + 1, CAP); } else { WorkGrows(g, [obj], CAP, CAP); }
        return Ok(true);
      }
      if i == CAP {
        return Err(Circular);
      }
      i := i + 1;
    }
    WorkStays(g, [obj], list, CAP);
    r := Ok(false);
  }

  /** Membership in the same list, as long as there is one. */
  method HasProto(g: World, obj: Obj, target: Obj) returns (r: Result<bool>)
    requires WellFormed(g)
    ensures |Work(g, [obj], CAP)| <= CAP ==> r.Ok? && (r.value <==> target in Order(Work(g, [obj], CAP)))
    ensures r.Ok? && r.value ==> target == OBJECT || Reaches(g, obj, target)
  {
    ghost var w := Work(g, [obj], CAP);
    assert target in Order(w) <==> target in w || target == OBJECT;
    WorkGrows(g, [obj], 0, CAP);
    assert w[0] == obj;
    if obj == target {
      assert Path(g, [obj]);
      return Ok(true);
    }
    if target == OBJECT {
      return Ok(true);
    }
    if g.plain(obj) && g.protos(obj)[0] == target {
      assert target in g.protos(obj) && target in Kids(g, obj);
      assert target in Work(g, [obj], 1);
      ReachesFound(g, obj, 1, target);
      WorkGrows(g, [obj], 1, CAP);
      return Ok(true);
    }
    r := FindProto(g, obj, target);
  }

  // ----- attribute lookup -----

  /** The first object of the list that has the attribute, counting only objects
      behind `super` when there is one. */
  function Search(look: Obj -> Option<int>, list: seq<Obj>, super: Option<Obj>): Option<(Obj, int)> {
    if list == [] then None
    else if super.None? && look(list[0]).Some? then Some((list[0], look(list[0]).value))
    else Search(look, list[1..], if super == Some(list[0]) then None else super)
  }

  /** Nothing before the hit has the attribute, counting from behind `super`. */
  lemma {:induction false} SearchFirst(look: Obj -> Option<int>, list: seq<Obj>, super: Option<Obj>) returns (from: nat, at: nat)
    requires NoDup(list)
    ensures super.None? ==> from == 0
    ensures super.Some? ==> from == |list| + 1 || (0 < from <= |list| && list[from - 1] == super.value)
    ensures super.Some? && from == |list| + 1 ==> super.value !in list
    ensures Search(look, list, super).None? ==> forall i :: from <= i < |list| ==> look(list[i]).None?
    ensures Search(look, list, super).Some? ==>
              && from <= at < |list| && look(list[at]).Some? && Search(look, list, super) == Some((list[at], look(list[at]).value))
              && forall i :: from <= i < at ==> look(list[i]).None?
    decreases |list|
  {
    at := 0;
    if list == [] {
      from := if super.None? then 0 else 1;
    } else if super.None? && look(list[0]).Some? {
      from := 0;
    } else {
      var f, a := SearchFirst(look, list[1..], if super == Some(list[0]) then None else super);
      at := a + 1;
      from := if super.None? then 0 else f + 1;
    }
  }

  /** An attribute of an object is never hidden by one of its prototypes. */
  lemma ChildNotHidden(g: World, look: Obj -> Option<int>, obj: Obj, w: seq<Obj>, x: Obj, p: Obj)
    requires WellFormed(g) && Closed(g, [obj], w) && x in Order(w) && x != OBJECT && p in g.protos(x) && look(x).Some?
    ensures Search(look, Order(w), None).Some? && Search(look, Order(w), None).value.0 != p
  {
    var list := Order(w);
    OrderIsReachable(g, obj, w);
    ChildFirst(g, obj, w, x, p);
    var i, j :| 0 <= i < j < |list| && list[i] == x && list[j] == p;
    var from, at := SearchFirst(look, list, None);
  }

  // ----- the walk along single prototypes -----

  /** The object get_proto_attr looks at, and the object it has still to pass. */
  datatype Walk = Walk(obj: Obj, super: Option<Obj>)

  /** The attribute is found here, counting only objects behind `super`. */
  predicate Hit(look: Obj -> Option<int>, s: Walk) {
    s.super.None? && look(s.obj).Some?
  }

  /** The walk ends here: a hit, the root, none or several prototypes, or an object
      that is its own. */
  predicate Stops(g: World, look: Obj -> Option<int>, s: Walk) {
    Hit(look, s) || s.obj == OBJECT || |g.protos(s.obj)| != 1 || g.protos(s.obj)[0] == s.obj
  }

  function Passed(s: Walk): Option<Obj> {
    if s.super == Some(s.obj) then None else s.super
  }

  /** One turn: on to the single prototype. */
  function Turn(g: World, s: Walk): Walk {
    Walk(if |g.protos(s.obj)| == 1 then g.protos(s.obj)[0] else s.obj, Passed(s))
  }

  function Turns(g: World, s: Walk, n: nat): Walk
    decreases n
  {
    if n == 0 then s else Turns(g, Turn(g, s), n - 1)
  }

  /** The walk ends after n turns and not before. */
  ghost predicate EndsAfter(g: World, look: Obj -> Option<int>, s: Walk, n: nat) {
    Stops(g, look, Turns(g, s, n)) && forall m: nat :: m < n ==> !Stops(g, look, Turns(g, s, m))
  }

  ghost predicate Ends(g: World, look: Obj -> Option<int>, s: Walk) {
    exists n: nat :: EndsAfter(g, look, s, n)
  }

  /** The object after n single-prototype steps from o. */
  function Along(g: World, o: Obj, n: nat): Obj {
    if n == 0 then o
    else
      var p := Along(g, o, n - 1);
      if |g.protos(p)| == 1 then g.protos(p)[0] else p
  }

  lemma {:induction false} TurnsOn(g: World, s: Walk, n: nat)
    ensures Turns(g, s, n + 1) == Turn(g, Turns(g, s, n))
    decreases n
  {
    if n > 0 { TurnsOn(g, Turn(g, s), n - 1); }
  }

  /** One of the first n objects along is `super`. */
  ghost predicate LeftBehind(g: World, o: Obj, super: Option<Obj>, n: nat) {
    exists m: nat :: m < n && super == Some(Along(g, o, m))
  }

  /** After n turns: the n-th object along, with `super` passed if it was one of
      those before. */
  lemma {:induction false} TurnsAlong(g: World, o: Obj, super: Option<Obj>, n: nat)
    ensures Turns(g, Walk(o, super), n) == Walk(Along(g, o, n), if LeftBehind(g, o, super, n) then None else super)
    decreases n
  {
    if n > 0 {
      TurnsAlong(g, o, super, n - 1);
      TurnsOn(g, Walk(o, super), n - 1);
      if LeftBehind(g, o, super, n - 1) {
        var m: nat :| m < n - 1 && super == Some(Along(g, o, m));
        assert m < n;
      } else if super == Some(Along(g, o, n - 1)) {
        assert LeftBehind(g, o, super, n);
      }
    }
  }

  /** n single-prototype steps from o come to the root, to an object with none or
      several prototypes, to one that is its own, or to a hit: one with the
      attribute, `super` not given or left behind. */
  ghost predicate ComesTo(g: World, look: Obj -> Option<int>, o: Obj, super: Option<Obj>, n: nat) {
    var x := Along(g, o, n);
    || x == OBJECT || |g.protos(x)| != 1 || g.protos(x)[0] == x
    || (look(x).Some? && (super.None? || LeftBehind(g, o, super, n)))
  }

  /** The walk ends if and only if some number of steps comes to such an object. */
  lemma EndsIff(g: World, look: Obj -> Option<int>, o: Obj, super: Option<Obj>)
    ensures Ends(g, look, Walk(o, super)) <==> exists n: nat :: ComesTo(g, look, o, super, n)
  {
    var s := Walk(o, super);
    if Ends(g, look, s) {
      var n: nat :| EndsAfter(g, look, s, n);
      TurnsAlong(g, o, super, n);
      assert ComesTo(g, look, o, super, n);
    }
    if n: nat :| ComesTo(g, look, o, super, n) {
      TurnsAlong(g, o, super, n);
      FirstStop(g, look, s, n);
    }
  }

  lemma {:induction false} FirstStop(g: World, look: Obj -> Option<int>, s: Walk, n: nat)
    requires Stops(g, look, Turns(g, s, n))
    ensures Ends(g, look, s)
    decreases n
  {
    if m: nat :| m < n && Stops(g, look, Turns(g, s, m)) {
      FirstStop(g, look, s, m);
    } else {
      assert EndsAfter(g, look, s, n);
    }
  }

  lemma {:induction false} TurnsAdd(g: World, s: Walk, m: nat, n: nat)
    ensures Turns(g, s, m + n) == Turns(g, Turns(g, s, m), n)
    decreases m
  {
    if m > 0 { TurnsAdd(g, Turn(g, s), m - 1, n); }
  }

  /** Once the walk is back where it was n turns before, it ends only if it has ended
      by then: around a cycle of single prototypes without a hit it goes on forever. */
  lemma RepeatDecides(g: World, look: Obj -> Option<int>, s: Walk, i: nat, n: nat)
    requires n > 0 && Turns(g, s, i + n) == Turns(g, s, i)
    ensures Ends(g, look, s) <==> exists m: nat :: m < i + n && Stops(g, look, Turns(g, s, m))
  {
    if k: nat :| EndsAfter(g, look, s, k) {
      Folded(g, s, i, n, k);
      var m: nat :| m < i + n && Turns(g, s, m) == Turns(g, s, k);
      assert Stops(g, look, Turns(g, s, m));
    }
    if m: nat :| m < i + n && Stops(g, look, Turns(g, s, m)) {
      FirstStop(g, look, s, m);
    }
  }

  lemma {:induction false} Folded(g: World, s: Walk, i: nat, n: nat, k: nat)
    requires n > 0 && Turns(g, s, i + n) == Turns(g, s, i)
    ensures exists m: nat :: m < i + n && Turns(g, s, m) == Turns(g, s, k)
    decreases k
  {
    if k >= i + n {
      TurnsAdd(g, s, i + n, k - i - n);
      TurnsAdd(g, s, i, k - i - n);
      Folded(g, s, i, n, k - n);
    }
  }

  /** The answer where the walk ends. */
  function EndAnswer(g: World, look: Obj -> Option<int>, s: Walk): Result<Option<(Obj, int)>> {
    if Hit(look, s) then Ok(Some((s.obj, look(s.obj).value)))
    else if s.obj == OBJECT then Ok(None)
    else if |g.protos(s.obj)| == 1 then Err(SelfProto)
    else BranchAnswer(g, look, s)
  }

  /** From an object with none or several prototypes: the first hit in what their
      worklist leaves, unless that is longer than 100. */
  function BranchAnswer(g: World, look: Obj -> Option<int>, s: Walk): Result<Option<(Obj, int)>> {
    var w := Work(g, Kids(g, s.obj), 100);
    if |w| <= 100 then Ok(Search(look, KeepLast(w + [OBJECT]), Passed(s))) else Err(Circular)
  }

  // ----- the walk against the linearisation -----

  /** An object that is not the root comes first in its own linearisation, its
      prototypes' follows. */
  lemma OrderSplit(g: World, o: Obj, w: seq<Obj>)
    requires Closed(g, [o], w) && o != OBJECT
    ensures w != [] && w[0] == o && Closed(g, Kids(g, o), w[1..])
    ensures Order(w) == [o] + KeepLast(w[1..] + [OBJECT])
  {
    WorkGrows(g, [o], 0, |w|);
    FromKids(g, o, |w| - 1);
    assert w == [o] + Work(g, Kids(g, o), |w| - 1);
    assert (w + [OBJECT])[1..] == w[1..] + [OBJECT];
    forall j | 0 <= j < |w[1..] + [OBJECT]|
      ensures (w[1..] + [OBJECT])[j] != o
    {
      if j < |w| - 1 { NotAgain(g, o, w, j + 1); }
    }
  }

  lemma {:induction false} NoOthers(s: seq<Obj>)
    requires forall x :: x in s ==> x == OBJECT
    ensures Others(s) == []
  {
    if s != [] {
      assert s[0] in s && forall x :: x in s[1..] ==> x in s;
      NoOthers(s[1..]);
    }
  }

  lemma OneOther(s: seq<Obj>)
    requires |s| == 1
    ensures Others(s) == if s[0] == OBJECT then [] else s
  {
    assert s[1..] == [] && Others(s[1..]) == [];
  }

  lemma RootOrder(g: World)
    requires WellFormed(g)
    ensures Closed(g, [OBJECT], [OBJECT]) && Order([OBJECT]) == [OBJECT]
  {
    NoOthers(g.protos(OBJECT));
    assert Work(g, [OBJECT], 1) == [OBJECT];
    assert ([OBJECT] + [OBJECT])[1..] == [OBJECT];
    assert KeepLast([OBJECT]) == [OBJECT] by { assert [OBJECT][1..] == []; }
  }

  /** What is known about the objects still to search: their linearisation, from obj
      on, gives what the whole one gives. */
  ghost predicate Pending(g: World, look: Obj -> Option<int>, w: seq<Obj>, super: Option<Obj>,
                          obj: Obj, cur: seq<Obj>, left: Option<Obj>)
  {
    && Closed(g, [obj], cur) && |cur| <= |w| + (if obj == OBJECT then 1 else 0)
    && Search(look, Order(w), super) == Search(look, Order(cur), left)
  }

  lemma SearchSkip(look: Obj -> Option<int>, x: Obj, rest: seq<Obj>, super: Option<Obj>)
    requires super.Some? || look(x).None?
    ensures Search(look, [x] + rest, super) == Search(look, rest, if super == Some(x) then None else super)
  {
    assert ([x] + rest)[1..] == rest;
  }

  /** From an object with a single prototype on to it. */
  lemma NextInChain(g: World, look: Obj -> Option<int>, w: seq<Obj>, super: Option<Obj>, obj: Obj, cur: seq<Obj>,
                    left: Option<Obj>, p: Obj) returns (rest: seq<Obj>)
    requires WellFormed(g) && Pending(g, look, w, super, obj, cur, left) && obj != OBJECT && g.protos(obj) == [p]
    requires left.Some? || look(obj).None?
    ensures Pending(g, look, w, super, p, rest, if left == Some(obj) then None else left)
  {
    OrderSplit(g, obj, cur);
    SearchSkip(look, obj, KeepLast(cur[1..] + [OBJECT]), left);
    OneOther(g.protos(obj));
    if p == OBJECT {
      assert Kids(g, obj) == [];
      WorkStays(g, [], [], |cur| - 1);
      assert cur[1..] + [OBJECT] == [OBJECT];
      RootOrder(g);
      rest := [OBJECT];
      assert [OBJECT][1..] == [];
    } else {
      assert Kids(g, obj) == [p];
      rest := cur[1..];
    }
  }

  /** An object that is its own prototype has no complete worklist. */
  lemma NotItsOwn(g: World, o: Obj, w: seq<Obj>)
    requires Closed(g, [o], w) && o in g.protos(o)
    ensures o == OBJECT
  {
    if o != OBJECT {
      WorkGrows(g, [o], 0, |w|);
      assert w[0] == o && o in Kids(g, o);
      KidBehind(g, [o], w, 0, o);
      var j :| 0 < j < |w| && w[j] == o;
      NotAgain(g, o, w, j);
    }
  }

  /** What the breadth-first part leaves to say. */
  lemma BranchResult(g: World, look: Obj -> Option<int>, w: seq<Obj>, super: Option<Obj>, obj: Obj, cur: seq<Obj>, left: Option<Obj>)
    requires Pending(g, look, w, super, obj, cur, left) && obj != OBJECT && (left.Some? || look(obj).None?)
    ensures var v := Work(g, Kids(g, obj), 100);
            if |v| <= 100 then Search(look, Order(w), super) == Search(look, KeepLast(v + [OBJECT]), if left == Some(obj) then None else left)
            else |w| > CAP
  {
    OrderSplit(g, obj, cur);
    SearchSkip(look, obj, KeepLast(cur[1..] + [OBJECT]), left);
    var rest := cur[1..];
    var v := Work(g, Kids(g, obj), 100);
    if |rest| <= 100 {
      WorkStays(g, Kids(g, obj), rest, 100);
    } else if |v| <= 100 {
      WorkShort(g, Kids(g, obj), 100);
      ClosedUnique(g, Kids(g, obj), v, rest);
    }
  }

  /** What get_proto_attr may answer, when the worklist is w. */
  ghost predicate Answers(look: Obj -> Option<int>, w: seq<Obj>, super: Option<Obj>, r: Result<Option<(Obj, int)>>) {
    if r.Ok? then r.value == Search(look, Order(w), super) else r.error == Circular && |w| > CAP
  }

  lemma HitNow(g: World, look: Obj -> Option<int>, w: seq<Obj>, super: Option<Obj>, obj: Obj, cur: seq<Obj>)
    requires WellFormed(g) && Pending(g, look, w, super, obj, cur, None) && look(obj).Some?
    ensures Search(look, Order(w), super) == Some((obj, look(obj).value))
  {
    if obj == OBJECT {
      RootOrder(g);
      ClosedUnique(g, [OBJECT], [OBJECT], cur);
    } else {
      OrderSplit(g, obj, cur);
    }
  }

  lemma RootNow(g: World, look: Obj -> Option<int>, w: seq<Obj>, super: Option<Obj>, cur: seq<Obj>, left: Option<Obj>)
    requires WellFormed(g) && Pending(g, look, w, super, OBJECT, cur, left) && (left.Some? || look(OBJECT).None?)
    ensures Search(look, Order(w), super) == None
  {
    RootOrder(g);
    ClosedUnique(g, [OBJECT], [OBJECT], cur);
    SearchSkip(look, OBJECT, [], left);
    assert [OBJECT] + [] == [OBJECT];
  }

  /** get_proto_attr: single prototypes one after the other, then the breadth-first
      list from the first object that has several. It needs the walk to end. The
      answer is the one where it ends and, when there is a linearisation, the first
      hit along that. */
  method GetProtoAttr(g: World, look: Obj -> Option<int>, objid: Obj, super0: Option<Obj>)
    returns (r: Result<Option<(Obj, int)>>)
    requires WellFormed(g) && Ends(g, look, Walk(objid, super0))
    ensures forall n: nat :: EndsAfter(g, look, Walk(objid, super0), n) ==> r == EndAnswer(g, look, Turns(g, Walk(objid, super0), n))
    ensures forall w :: Closed(g, [objid], w) ==> Answers(look, w, super0, r)
  {
    ghost var n: nat :| EndsAfter(g, look, Walk(objid, super0), n);
    ghost var w: seq<Obj> :| (exists v :: Closed(g, [objid], v)) ==> Closed(g, [objid], w);
    r := LookAlong(g, look, objid, super0, n, w);
    forall m: nat | EndsAfter(g, look, Walk(objid, super0), m)
      ensures m == n
    {
    }
    forall v | Closed(g, [objid], v)
      ensures Answers(look, v, super0, r)
    {
      ClosedUnique(g, [objid], v, w);
    }
  }

  method LookAlong(g: World, look: Obj -> Option<int>, objid: Obj, super0: Option<Obj>, ghost n: nat, ghost w: seq<Obj>)
    returns (r: Result<Option<(Obj, int)>>)
    requires WellFormed(g) && EndsAfter(g, look, Walk(objid, super0), n)
    ensures r == EndAnswer(g, look, Turns(g, Walk(objid, super0), n))
    ensures Closed(g, [objid], w) ==> Answers(look, w, super0, r)
  {
    var obj, super := objid, super0;
    ghost var start, i := Walk(objid, super0), 0;
    ghost var known, cur := Closed(g, [objid], w), w;
    while true
      invariant 0 <= i <= n && Walk(obj, super) == Turns(g, start, i)
      invariant known ==> Pending(g, look, w, super0, obj, cur, super)
      decreases n - i
    {
      ghost var s := Walk(obj, super);
      if super.None? && look(obj).Some? {
        if known { HitNow(g, look, w, super0, obj, cur); }
        return Ok(Some((obj, look(obj).value)));
      }
      if obj == OBJECT {
        if known { RootNow(g, look, w, super0, cur, super); }
        return Ok(None);
      }
      var next := if super == Some(obj) then None else super;
      if |g.protos(obj)| != 1 {
        if known { BranchResult(g, look, w, super0, obj, cur, super); }
        r := SearchBranch(g, look, obj, next);
        return;
      }
      var proto := g.protos(obj)[0];
      assert g.protos(obj) == [proto];
      if obj == proto {
        if known { NotItsOwn(g, obj, cur); }
        return Err(SelfProto);
      }
      if known { cur := NextInChain(g, look, w, super0, obj, cur, super, proto); }
      TurnsOn(g, start, i);
      obj, super, i := proto, next, i + 1;
    }
  }

  /** The breadth-first part, from an object already looked at. */
  method SearchBranch(g: World, look: Obj -> Option<int>, obj: Obj, super0: Option<Obj>) returns (r: Result<Option<(Obj, int)>>)
    ensures r == if |Work(g, Kids(g, obj), 100)| <= 100 then Ok(Search(look, KeepLast(Work(g, Kids(g, obj), 100) + [OBJECT]), super0))
                 else Err(Circular)
  {
    var start := AppendKids(g, obj, []);
    assert start == Kids(g, obj);
    var ok, list := Grow(g, start, 100);
    if !ok {
      return Err(Circular);
    }
    WorkStays(g, start, list, 100);
    list := KeepLasts(list + [OBJECT]);
    var i, super := 0, super0;
    assert list[0..] == list;
    while i < |list|
      invariant i <= |list| && Search(look, list, super0) == Search(look, list[i..], super)
    {
      assert list[i..][1..] == list[i + 1..];
      if super.None? && look(list[i]).Some? {
        return Ok(Some((list[i], look(list[i]).value)));
      }
      if super == Some(list[i]) {
        super := None;
      }
      i := i + 1;
    }
    r := Ok(None);
  }

  // ----- several prototypes -----

  /** From an object with different prototypes that have only the root above them, the
      first of them that has the attribute answers. */
  lemma FirstProtoWins(g: World, look: Obj -> Option<int>, obj: Obj, i: nat, r: Result<Option<(Obj, int)>>)
    requires obj != OBJECT && OBJECT !in g.protos(obj) && obj !in g.protos(obj) && NoDup(g.protos(obj))
    requires (forall p :: p in g.protos(obj) ==> Kids(g, p) == []) && |g.protos(obj)| < CAP
    requires look(obj).None? && i < |g.protos(obj)| && look(g.protos(obj)[i]).Some?
    requires forall k :: 0 <= k < i ==> look(g.protos(obj)[k]).None?
    requires forall w :: Closed(g, [obj], w) ==> Answers(look, w, None, r)
    ensures r == Ok(Some((g.protos(obj)[i], look(g.protos(obj)[i]).value)))
  {
    var ps := g.protos(obj);
    var w := [obj] + ps;
    FlatList(g, obj);
    assert Answers(look, w, None, r);
    var list := w + [OBJECT];
    OrderIsReachable(g, obj, w);
    var from, at := SearchFirst(look, list, None);
    assert list[1 + i] == ps[i];
    forall m | 0 <= m < 1 + i
      ensures look(list[m]).None?
    {
      if m > 0 { assert list[m] == ps[m - 1]; }
    }
  }

  // ----- chains at their limits -----

  /** Two objects that are each other's only prototype. */
  function TwoCycle(): World {
    World((o: Obj) => if o == 1 then [2] else if o == 2 then [1] else [], (o: Obj) => o == 1 || o == 2)
  }

  /** Around the cycle: without the attribute the walk never ends and there is no
      linearisation; with the attribute on object 1 it ends at once. */
  lemma TwoCycleWalk(look: Obj -> Option<int>, super: Option<Obj>)
    ensures look(1).None? && look(2).None? ==> !Ends(TwoCycle(), look, Walk(1, super))
    ensures look(1).Some? && super.None? ==> EndsAfter(TwoCycle(), look, Walk(1, super), 0)
    ensures WellFormed(TwoCycle()) && forall w :: !Closed(TwoCycle(), [1], w)
  {
    var g, s := TwoCycle(), Walk(1, super);
    if n: nat :| EndsAfter(g, look, s, n) {
      TurnsAlong(g, 1, super, n);
      CycleAlong(n);
    }
    if w :| Closed(g, [1], w) {
      WorkGrows(g, [1], 0, |w|);
      assert Kids(g, 1) == [2] && Kids(g, 2) == [1] by {
        OneOther([1]);
        OneOther([2]);
      }
      CompleteMeansAcyclic(g, 1, w, [1, 2, 1]);
    }
  }

  lemma {:induction false} CycleAlong(n: nat)
    ensures Along(TwoCycle(), 1, n) == if n % 2 == 0 then 1 else 2
    decreases n
  {
    if n > 0 { CycleAlong(n - 1); }
  }

  /** Every object's prototype is the next lower number. */
  function Ladder(): World {
    World((o: Obj) => if o == OBJECT then [] else [o - 1], (o: Obj) => o != OBJECT)
  }

  /** On a chain of more than 101 objects, and on no shorter one, proto_list reports a
      circular reference, although there is none; get_proto_attr answers. */
  lemma LongChain(look: Obj -> Option<int>, o: Obj, super: Option<Obj>)
    requires o != OBJECT
    ensures WellFormed(Ladder()) && (|Work(Ladder(), [o], CAP)| > CAP <==> o > 101)
    ensures Ranked(Ladder(), o, x => x) && Ends(Ladder(), look, Walk(o, super))
    ensures forall n: nat :: EndsAfter(Ladder(), look, Walk(o, super), n) ==> EndAnswer(Ladder(), look, Turns(Ladder(), Walk(o, super), n)).Ok?
  {
    var g := Ladder();
    LadderLength(o);
    LadderAlong(o, o);
    TurnsAlong(g, o, super, o);
    FirstStop(g, look, Walk(o, super), o);
    forall n: nat | EndsAfter(g, look, Walk(o, super), n)
      ensures EndAnswer(g, look, Turns(g, Walk(o, super), n)).Ok?
    {
      TurnsAlong(g, o, super, n);
      assert n <= o;
      LadderAlong(o, n);
    }
  }

  lemma LadderLength(o: Obj)
    requires o != OBJECT
    ensures |Work(Ladder(), [o], CAP)| > CAP <==> o > 101
  {
    if o > CAP {
      LadderWork(o, CAP);
    } else {
      LadderWork(o, o - 1);
      OneOther(Ladder().protos(1));
      var w := Work(Ladder(), [o], o - 1);
      assert w[o - 1] == 1 && w + [] == w;
      WorkStays(Ladder(), [o], w, CAP);
    }
  }

  lemma {:induction false} LadderWork(o: Obj, i: nat)
    requires i < o
    ensures Work(Ladder(), [o], i) == seq(i + 1, j requires 0 <= j < i + 1 => o - j)
    decreases i
  {
    if i > 0 {
      LadderWork(o, i - 1);
      OneOther(Ladder().protos(o - (i - 1)));
    }
  }

  lemma {:induction false} LadderAlong(o: Obj, n: nat)
    requires n <= o
    ensures Along(Ladder(), o, n) == o - n
    decreases n
  {
    if n > 0 { LadderAlong(o, n - 1); }
  }
}
