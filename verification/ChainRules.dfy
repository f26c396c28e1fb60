/** The generator's chain rule and the grammar's give an expression the same meaning
    on every host exactly when no unary operator passes a comparison flag on to a
    comparison: for any other expression there is a host that leads the evaluation
    to that place and tells the two apart. */
module ChainRules {
  import opened Machine
  import opened Language
  import opened Chains

  /** The true object of a comparison exists at run time only; no literal is one. */
  predicate Literal(e: Expr) {
    match e
    case Const(obj) => !obj.CmpTrue?
    case Unary(_, e1) => Literal(e1)
    case Binary(_, l, r) => Literal(l) && Literal(r)
    case Compare(_, l, r) => Literal(l) && Literal(r)
    case AndOr(_, l, r) => Literal(l) && Literal(r)
  }

  // ----- traces only grow -----

  predicate Extends(t: Trace, u: Trace) {
    |t| <= |u| && u[..|t|] == t
  }

  lemma ExtendsOn(t: Trace, u: Trace, w: Trace)
    requires Extends(t, u) && Extends(u, w)
    ensures Extends(t, w)
  {
    assert w[..|t|] == w[..|u|][..|t|];
  }

  lemma CallGrows(host: Host, tr: Trace, self: Obj, name: Obj, args: seq<Obj>)
    ensures Extends(tr, CallObj(host, tr, self, name, args).1)
  {
  }

  /** The trace when the left operand has been evaluated. */
  function AfterLeft(host: Host, rule: Chaining, e: Expr, tr: Trace): Trace {
    match e
    case Const(_) => tr
    case Unary(_, e1) => Eval(host, rule, e1, tr).1
    case Binary(_, l, _) => Eval(host, rule, l, tr).1
    case Compare(_, l, _) => Eval(host, rule, l, tr).1
    case AndOr(_, l, _) => Eval(host, rule, l, tr).1
  }

  lemma {:induction false} Grows(host: Host, rule: Chaining, e: Expr, tr: Trace)
    ensures Extends(tr, Eval(host, rule, e, tr).1)
    ensures Extends(AfterLeft(host, rule, e, tr), Eval(host, rule, e, tr).1)
    decreases e
  {
    match e
    case Const(_) =>
    case Unary(op, e1) =>
      Grows(host, rule, e1, tr);
      var (v, tr1) := Eval(host, rule, e1, tr);
      CallGrows(host, tr1, v, op, []);
      ExtendsOn(tr, tr1, Eval(host, rule, e, tr).1);
    case Binary(op, l, r) =>
      Grows(host, rule, l, tr);
      var (a, tr1) := Eval(host, rule, l, tr);
      Grows(host, rule, r, tr1);
      var (b, tr2) := Eval(host, rule, r, tr1);
      CallGrows(host, tr2, a, op, [NoKey, b]);
      ExtendsOn(tr1, tr2, Eval(host, rule, e, tr).1);
      ExtendsOn(tr, tr1, Eval(host, rule, e, tr).1);
    case Compare(op, l, r) =>
      Grows(host, rule, l, tr);
      var (c, tr1) := Eval(host, rule, l, tr);
      if !(Chained(rule, l) && c == False) {
        var (a, tr2) := if Chained(rule, l) then CallObj(host, tr1, c, GETCMP, []) else (c, tr1);
        CallGrows(host, tr1, c, GETCMP, []);
        Grows(host, rule, r, tr2);
        var (b, tr3) := Eval(host, rule, r, tr2);
        CallGrows(host, tr3, a, op, [NoKey, b]);
        ExtendsOn(tr1, tr2, tr3);
        ExtendsOn(tr1, tr3, Eval(host, rule, e, tr).1);
        ExtendsOn(tr, tr1, Eval(host, rule, e, tr).1);
      }
    case AndOr(isOr, l, r) =>
      Grows(host, rule, l, tr);
      var (v, tr1) := Eval(host, rule, l, tr);
      var (t, tr2) := CallObj(host, tr1, v, BOOL, []);
      CallGrows(host, tr1, v, BOOL, []);
      Grows(host, rule, r, tr2);
      ExtendsOn(tr, tr1, tr2);
      if t != (if isOr then True else False) {
        ExtendsOn(tr1, tr2, Eval(host, rule, e, tr).1);
        ExtendsOn(tr, tr2, Eval(host, rule, e, tr).1);
      }
  }

  // ----- a host matters only where it is asked -----

  ghost predicate Same(h: Host, k: Host, m: nat, n: nat) {
    forall t: Trace, ev :: m <= |t| < n ==> h(t, ev) == k(t, ev)
  }

  lemma CallLocal(h: Host, k: Host, tr: Trace, self: Obj, name: Obj, args: seq<Obj>)
    requires Same(h, k, |tr|, |CallObj(h, tr, self, name, args).1|)
    ensures CallObj(k, tr, self, name, args) == CallObj(h, tr, self, name, args)
  {
  }

  lemma {:induction false} Local(h: Host, k: Host, rule: Chaining, e: Expr, tr: Trace)
    requires Same(h, k, |tr|, |Eval(h, rule, e, tr).1|)
    ensures Eval(k, rule, e, tr) == Eval(h, rule, e, tr)
    decreases e
  {
    Grows(h, rule, e, tr);
    match e
    case Const(_) =>
    case Unary(op, e1) =>
      Grows(h, rule, e1, tr);
      Local(h, k, rule, e1, tr);
      var (v, tr1) := Eval(h, rule, e1, tr);
      CallLocal(h, k, tr1, v, op, []);
    case Binary(op, l, r) =>
      var (a, tr1) := Eval(h, rule, l, tr);
      var (b, tr2) := Eval(h, rule, r, tr1);
      Grows(h, rule, l, tr);
      Grows(h, rule, r, tr1);
      CallGrows(h, tr2, a, op, [NoKey, b]);
      Local(h, k, rule, l, tr);
      Local(h, k, rule, r, tr1);
      CallLocal(h, k, tr2, a, op, [NoKey, b]);
    case Compare(op, l, r) =>
      var (c, tr1) := Eval(h, rule, l, tr);
      Grows(h, rule, l, tr);
      Local(h, k, rule, l, tr);
      if !(Chained(rule, l) && c == False) {
        var (a, tr2) := if Chained(rule, l) then CallObj(h, tr1, c, GETCMP, []) else (c, tr1);
        var (b, tr3) := Eval(h, rule, r, tr2);
        CallGrows(h, tr1, c, GETCMP, []);
        Grows(h, rule, r, tr2);
        CallGrows(h, tr3, a, op, [NoKey, b]);
        if Chained(rule, l) { CallLocal(h, k, tr1, c, GETCMP, []); }
        Local(h, k, rule, r, tr2);
        CallLocal(h, k, tr3, a, op, [NoKey, b]);
      }
    case AndOr(isOr, l, r) =>
      var (v, tr1) := Eval(h, rule, l, tr);
      var (t, tr2) := CallObj(h, tr1, v, BOOL, []);
      Grows(h, rule, l, tr);
      CallGrows(h, tr1, v, BOOL, []);
      Grows(h, rule, r, tr2);
      Local(h, k, rule, l, tr);
      CallLocal(h, k, tr1, v, BOOL, []);
      if t != (if isOr then True else False) { Local(h, k, rule, r, tr2); }
  }

  /** The first n calls go to h, the others to k. */
  function Splice(h: Host, k: Host, n: nat): Host {
    (t: Trace, ev: Event) => if |t| < n then h(t, ev) else k(t, ev)
  }

  lemma First(h: Host, k: Host, rule: Chaining, e: Expr, tr: Trace)
    ensures Eval(Splice(h, k, |Eval(h, rule, e, tr).1|), rule, e, tr) == Eval(h, rule, e, tr)
  {
    Local(h, Splice(h, k, |Eval(h, rule, e, tr).1|), rule, e, tr);
  }

  lemma Later(h: Host, k: Host, n: nat, rule: Chaining, e: Expr, tr: Trace)
    requires n <= |tr|
    ensures Eval(Splice(h, k, n), rule, e, tr) == Eval(k, rule, e, tr)
  {
    Local(k, Splice(h, k, n), rule, e, tr);
  }

  // ----- hosts that lead somewhere -----

  function Always(v: Obj): Host {
    (t: Trace, ev: Event) => v
  }

  /** When every call returns Null, no value is the true object of a comparison. */
  lemma {:induction false} DullValue(e: Expr, tr: Trace)
    requires Literal(e)
    ensures !Eval(Always(Null), ByGrammar, e, tr).0.CmpTrue?
    decreases e
  {
    match e
    case Const(_) =>
    case Unary(_, e1) =>
      DullValue(e1, tr);
    case Binary(_, l, _) =>
      DullValue(l, tr);
    case Compare(_, l, _) =>
    case AndOr(_, l, r) =>
      DullValue(l, tr);
      var (v, tr1) := Eval(Always(Null), ByGrammar, l, tr);
      DullValue(r, CallObj(Always(Null), tr1, v, BOOL, []).1);
  }

  /** Some host makes every link of a chain hold. */
  lemma {:induction false} CanHold(e: Expr, tr: Trace) returns (h: Host)
    requires e.Compare?
    ensures Eval(h, ByGrammar, e, tr).0.CmpTrue?
    decreases e
  {
    var l, r := e.l, e.r;
    var h1 := Always(Null);
    if l.Compare? { h1 := CanHold(l, tr); }
    var (c, tr1) := Eval(h1, ByGrammar, l, tr);
    var h2 := Always(True);
    var (b, tr2) := Eval(h2, ByGrammar, r, tr1);
    h := Splice(h1, h2, |tr1|);
    First(h1, h2, ByGrammar, l, tr);
    Later(h1, h2, |tr1|, ByGrammar, r, tr1);
    Grows(h2, ByGrammar, r, tr1);
  }

  // ----- two rules, two traces -----

  ghost predicate Diverge(t: Trace, u: Trace) {
    exists i :: 0 <= i < |t| && i < |u| && t[i] != u[i]
  }

  lemma DivergeOn(t: Trace, u: Trace, t': Trace, u': Trace)
    requires Diverge(t, u) && Extends(t, t') && Extends(u, u')
    ensures Diverge(t', u')
  {
    var i :| 0 <= i < |t| && i < |u| && t[i] != u[i];
    assert t'[..|t|][i] == t[i] && u'[..|u|][i] == u[i];
  }

  /** The host sees different calls under the two rules. */
  ghost predicate Differ(host: Host, e: Expr, tr: Trace) {
    Diverge(Eval(host, ByFlag, e, tr).1, Eval(host, ByGrammar, e, tr).1)
  }

  /** The object that the first call of an expression is made on. */
  function FirstSelf(e: Expr): Obj {
    match e
    case Const(obj) => obj
    case Unary(_, e1) => FirstSelf(e1)
    case Binary(_, l, r) => if l.Const? && !r.Const? then FirstSelf(r) else FirstSelf(l)
    case Compare(_, l, r) => if l.Const? && !r.Const? then FirstSelf(r) else FirstSelf(l)
    case AndOr(_, l, _) => FirstSelf(l)
  }

  /** The next call after t in its extension u is made on v. */
  predicate NextOn(t: Trace, u: Trace, v: Obj) {
    |t| < |u| && u[|t|].self == v
  }

  lemma NextStays(t: Trace, u: Trace, w: Trace, v: Obj)
    requires NextOn(t, u, v) && Extends(u, w)
    ensures NextOn(t, w, v)
  {
    assert w[..|u|][|t|] == w[|t|];
  }

  lemma {:induction false} FirstCall(host: Host, e: Expr, tr: Trace)
    requires Literal(e) && !e.Const?
    ensures NextOn(tr, Eval(host, ByGrammar, e, tr).1, FirstSelf(e))
    decreases e, 0
  {
    Grows(host, ByGrammar, e, tr);
    var t1, end := AfterLeft(host, ByGrammar, e, tr), Eval(host, ByGrammar, e, tr).1;
    match e
    case Unary(_, e1) =>
      if !e1.Const? {
        FirstCall(host, e1, tr);
        NextStays(tr, t1, end, FirstSelf(e1));
      }
    case Binary(op, l, r) =>
      if !l.Const? {
        FirstCall(host, l, tr);
        NextStays(tr, t1, end, FirstSelf(l));
      } else {
        FirstRight(host, op, l.obj, r, tr);
      }
    case Compare(op, l, r) =>
      if !l.Const? {
        FirstCall(host, l, tr);
        NextStays(tr, t1, end, FirstSelf(l));
      } else {
        FirstRight(host, op, l.obj, r, tr);
      }
    case AndOr(_, l, r) =>
      if !l.Const? {
        FirstCall(host, l, tr);
        NextStays(tr, t1, end, FirstSelf(l));
      } else {
        var t2 := CallObj(host, tr, l.obj, BOOL, []).1;
        Grows(host, ByGrammar, r, t2);
        NextStays(tr, t2, Eval(host, ByGrammar, r, t2).1, l.obj);
      }
  }

  /** A constant on the left: the right operand comes first, then the call. */
  lemma {:induction false} FirstRight(host: Host, op: Obj, a: Obj, r: Expr, tr: Trace)
    requires Literal(r)
    ensures var (b, tr2) := Eval(host, ByGrammar, r, tr);
            NextOn(tr, CallObj(host, tr2, a, op, [NoKey, b]).1, if r.Const? then a else FirstSelf(r))
    decreases r, 1
  {
    var (b, tr2) := Eval(host, ByGrammar, r, tr);
    if !r.Const? {
      FirstCall(host, r, tr);
      CallGrows(host, tr2, a, op, [NoKey, b]);
      NextStays(tr, tr2, CallObj(host, tr2, a, op, [NoKey, b]).1, FirstSelf(r));
    }
  }

  /** A comparison whose left operand, a unary operator, passes a flag on: when that
      operator returns a fresh enough object, the generator's code asks it for the
      value compared last, which the grammar's reading does not. */
  lemma FlagTells(e: Expr, tr: Trace) returns (h: Host)
    requires Literal(e) && e.Compare? && e.l.Unary? && CmpFlag(e.l) && Clean(e.l)
    ensures Differ(h, e, tr)
  {
    var l, r, op := e.l, e.r, e.op;
    var dull := Always(Null);
    var (v, tr0) := Eval(dull, ByGrammar, l.e, tr);
    var c := if FirstSelf(r) == Null then True else Null;
    h := Splice(dull, Always(c), |tr0|);
    First(dull, Always(c), ByGrammar, l.e, tr);
    DullValue(l.e, tr);
    ReadingsAgree(h, l, tr);
    var tr1 := tr0 + [Event(v, l.op, [])];
    assert Eval(h, ByGrammar, l, tr) == (c, tr1);
    FlagAsks(h, e, tr, c, tr1);
    GrammarGoesOn(h, e, tr, c, tr1);
    assert Diverge(Eval(h, ByFlag, e, tr).1, Eval(h, ByGrammar, e, tr).1);
  }

  lemma FlagAsks(h: Host, e: Expr, tr: Trace, c: Obj, tr1: Trace)
    requires e.Compare? && CmpFlag(e.l) && Eval(h, ByFlag, e.l, tr) == (c, tr1) && c != False && !c.CmpTrue?
    ensures var t := Eval(h, ByFlag, e, tr).1; |t| > |tr1| && t[|tr1|] == Event(c, GETCMP, [])
  {
    var (a, tr2) := CallObj(h, tr1, c, GETCMP, []);
    var (b, tr3) := Eval(h, ByFlag, e.r, tr2);
    Grows(h, ByFlag, e.r, tr2);
    CallGrows(h, tr3, a, e.op, [NoKey, b]);
    var end := Eval(h, ByFlag, e, tr).1;
    ExtendsOn(tr2, tr3, end);
    assert end[..|tr2|][|tr1|] == end[|tr1|];
  }

  lemma GrammarGoesOn(h: Host, e: Expr, tr: Trace, c: Obj, tr1: Trace)
    requires e.Compare? && Literal(e) && !e.l.Compare? && Eval(h, ByGrammar, e.l, tr) == (c, tr1) && c != FirstSelf(e.r)
    ensures var t := Eval(h, ByGrammar, e, tr).1; |t| > |tr1| && t[|tr1|] != Event(c, GETCMP, [])
  {
    FirstRight(h, e.op, c, e.r, tr1);
  }

  // ----- leading the evaluation to the flag -----

  lemma LeftDiffers(h: Host, e: Expr, l: Expr, tr: Trace)
    requires Differ(h, l, tr) && !e.Const? && l == (if e.Unary? then e.e else e.l)
    ensures Differ(h, e, tr)
  {
    Grows(h, ByFlag, e, tr);
    Grows(h, ByGrammar, e, tr);
    DivergeOn(Eval(h, ByFlag, l, tr).1, Eval(h, ByGrammar, l, tr).1, Eval(h, ByFlag, e, tr).1, Eval(h, ByGrammar, e, tr).1);
  }

  /** Under either rule the right operand is evaluated, from trace t. */
  ghost predicate Reaches(h: Host, e: Expr, r: Expr, tr: Trace, t: Trace) {
    forall rule: Chaining :: Extends(Eval(h, rule, r, t).1, Eval(h, rule, e, tr).1)
  }

  lemma RightDiffers(h: Host, e: Expr, r: Expr, tr: Trace, t: Trace)
    requires Differ(h, r, t) && Reaches(h, e, r, tr, t)
    ensures Differ(h, e, tr)
  {
    DivergeOn(Eval(h, ByFlag, r, t).1, Eval(h, ByGrammar, r, t).1, Eval(h, ByFlag, e, tr).1, Eval(h, ByGrammar, e, tr).1);
  }

  /** The host h brings the evaluation of e to its right operand, at trace t. */
  ghost predicate Way(h: Host, e: Expr, tr: Trace, t: Trace)
    requires e.Binary? || e.Compare? || e.AndOr?
  {
    var (v, tr1) := Eval(h, ByGrammar, e.l, tr);
    match e
    case Binary(_, _, _) => t == tr1
    case Compare(_, l, _) => t == tr1 && (l.Compare? ==> v.CmpTrue?)
    case AndOr(_, _, _) =>
      var (b, tr2) := CallObj(h, tr1, v, BOOL, []);
      t == tr2 && b != True && b != False
  }

  lemma FindWay(e: Expr, tr: Trace) returns (h: Host, t: Trace)
    requires e.Binary? || e.Compare? || e.AndOr?
    requires Literal(e)
    ensures Way(h, e, tr, t)
  {
    h := Always(Null);
    if e.Compare? && e.l.Compare? { h := CanHold(e.l, tr); }
    var (v, tr1) := Eval(h, ByGrammar, e.l, tr);
    t := tr1;
    if e.AndOr? {
      DullValue(e.l, tr);
      t := CallObj(h, tr1, v, BOOL, []).1;
    }
  }

  /** The way does not depend on what the host does afterwards. */
  lemma WayReaches(h: Host, k: Host, e: Expr, tr: Trace, t: Trace)
    requires (e.Binary? || e.Compare? || e.AndOr?) && Way(h, e, tr, t)
    requires Clean(e.l) && (e.Compare? && CmpFlag(e.l) ==> e.l.Compare?)
    ensures Reaches(Splice(h, k, |t|), e, e.r, tr, t)
  {
    var s := Splice(h, k, |t|);
    var (v, tr1) := Eval(h, ByGrammar, e.l, tr);
    CallGrows(h, tr1, v, BOOL, []);
    Local(h, s, ByGrammar, e.l, tr);
    ReadingsAgree(s, e.l, tr);
    forall rule: Chaining
      ensures Extends(Eval(s, rule, e.r, t).1, Eval(s, rule, e, tr).1)
    {
      assert Eval(s, rule, e.l, tr) == (v, tr1);
      var (b, tr3) := Eval(s, rule, e.r, t);
      match e
      case Binary(op, _, _) =>
        CallGrows(s, tr3, v, op, [NoKey, b]);
      case Compare(op, l, _) =>
        CallGrows(s, tr3, if l.Compare? then v.val else v, op, [NoKey, b]);
      case AndOr(_, _, _) =>
        CallLocal(h, s, tr1, v, BOOL, []);
    }
  }

  lemma {:induction false} CanDiffer(e: Expr, tr: Trace) returns (h: Host)
    requires Literal(e) && !Clean(e)
    ensures Differ(h, e, tr)
    decreases e
  {
    var l := if e.Unary? then e.e else e.l;
    if !Clean(l) {
      h := CanDiffer(l, tr);
      LeftDiffers(h, e, l, tr);
    } else if e.Compare? && CmpFlag(l) && !l.Compare? {
      h := FlagTells(e, tr);
    } else {
      var h1, t := FindWay(e, tr);
      var k := CanDiffer(e.r, t);
      h := Splice(h1, k, |t|);
      Later(h1, k, |t|, ByFlag, e.r, t);
      Later(h1, k, |t|, ByGrammar, e.r, t);
      WayReaches(h1, k, e, tr, t);
      RightDiffers(h, e, e.r, tr, t);
    }
  }

  /** Both rules give e the same value and the same calls. */
  ghost predicate Alike(host: Host, e: Expr, tr: Trace) {
    Eval(host, ByFlag, e, tr) == Eval(host, ByGrammar, e, tr)
  }

  /** The generator's chains mean what the grammar says, on every host and from every
      trace, if and only if no comparison takes a flag over from a unary operator. */
  lemma AgreeIffClean(e: Expr)
    requires Literal(e)
    ensures (forall host: Host, tr: Trace :: Alike(host, e, tr)) <==> Clean(e)
  {
    if Clean(e) {
      forall host: Host, tr: Trace
        ensures Alike(host, e, tr)
      {
        ReadingsAgree(host, e, tr);
      }
    } else {
      var h := CanDiffer(e, []);
      assert !Alike(h, e, []);
    }
  }
}
