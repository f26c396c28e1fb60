/** Chained comparison: what a chain means, and where the code generator, which
    goes by the flag of a code block, recognises other chains than the grammar. */
module Chains {
  import opened Machine
  import opened Language

  // ----- chained comparison -----

  datatype ChainLink = ChainLink(op: Obj, e: Expr)

  /** e0 op1 e1 op2 e2 ..., as the grammar nests it. */
  function ChainExpr(e0: Expr, links: seq<ChainLink>): Expr {
    if links == [] then e0
    else Compare(links[|links| - 1].op, ChainExpr(e0, links[..|links| - 1]), links[|links| - 1].e)
  }

  /** Left to right, each operand once, stopping at the first link that fails. */
  function ChainFrom(host: Host, rule: Chaining, tr: Trace, a: Obj, links: seq<ChainLink>): (Obj, Trace)
    decreases |links|
  {
    if links == [] then (CmpTrue(a), tr)
    else
      var (b, tr1) := Eval(host, rule, links[0].e, tr);
      var (res, tr2) := CallObj(host, tr1, a, links[0].op, [NoKey, b]);
      if res != True then (False, tr2) else ChainFrom(host, rule, tr2, b, links[1..])
  }

  /** Appending a link: run it only if the chain so far held. */
  function OneMore(host: Host, rule: Chaining, c: Obj, tr: Trace, k: ChainLink): (Obj, Trace) {
    if !c.CmpTrue? then (False, tr)
    else
      var (b, tr1) := Eval(host, rule, k.e, tr);
      Language.Link(host, tr1, c.val, k.op, b)
  }

  lemma {:induction false} ChainSnoc(host: Host, rule: Chaining, tr: Trace, a: Obj, links: seq<ChainLink>, k: ChainLink)
    ensures var (c, tr') := ChainFrom(host, rule, tr, a, links);
            (c == False || c.CmpTrue?) && ChainFrom(host, rule, tr, a, links + [k]) == OneMore(host, rule, c, tr', k)
    decreases |links|
  {
    if links == [] {
      assert [k][1..] == [] && links + [k] == [k];
      var (b, tr1) := Eval(host, rule, k.e, tr);
      var (res, tr2) := CallObj(host, tr1, a, k.op, [NoKey, b]);
      assert ChainFrom(host, rule, tr2, b, []) == (CmpTrue(b), tr2);
    } else {
      var (b, tr1) := Eval(host, rule, links[0].e, tr);
      var (res, tr2) := CallObj(host, tr1, a, links[0].op, [NoKey, b]);
      assert (links + [k])[1..] == links[1..] + [k];
      if res == True {
        ChainSnoc(host, rule, tr2, b, links[1..], k);
      }
    }
  }

  /** A chain of comparisons of any length is the conjunction of its links. */
  lemma {:induction false} ChainMeaning(host: Host, rule: Chaining, tr: Trace, e0: Expr, links: seq<ChainLink>)
    requires !Chained(rule, e0) && links != []
    ensures var (a, tr1) := Eval(host, rule, e0, tr);
            Eval(host, rule, ChainExpr(e0, links), tr) == ChainFrom(host, rule, tr1, a, links)
    decreases |links|
  {
    var (a, tr1) := Eval(host, rule, e0, tr);
    var front, k := links[..|links| - 1], links[|links| - 1];
    assert links == front + [k];
    ChainSnoc(host, rule, tr1, a, front, k);
    if front != [] {
      ChainMeaning(host, rule, tr, e0, front);
    }
  }

  // ----- the compiled form against the language -----

  /** No unary operator over a comparison is itself the left operand of one. */
  predicate Clean(e: Expr) {
    match e
    case Const(_) => true
    case Unary(_, e1) => Clean(e1)
    case Binary(_, l, r) => Clean(l) && Clean(r)
    case Compare(_, l, r) => Clean(l) && Clean(r) && (CmpFlag(l) ==> l.Compare?)
    case AndOr(_, l, r) => Clean(l) && Clean(r)
  }

  /** The same for every expression of a statement. */
  predicate CleanStmt(s: Stmt) {
    match s
    case Pass => true
    case ExprStmt(e) => Clean(e)
    case Seq(s1, s2) => CleanStmt(s1) && CleanStmt(s2)
    case If(arms) => CleanArms(arms)
    case While(_, cond, body, els) => Clean(cond) && CleanStmt(body) && CleanStmt(els)
    case Break(_) => true
    case Continue(_) => true
  }

  predicate CleanArms(arms: Arms) {
    match arms
    case Else(s) => CleanStmt(s)
    case Arm(cond, body, rest) => Clean(cond) && CleanStmt(body) && CleanArms(rest)
  }

  lemma ComparisonValue(host: Host, e: Expr, tr: Trace)
    requires e.Compare?
    ensures var v := Eval(host, ByGrammar, e, tr).0; v == False || v.CmpTrue?
  {
  }

  /** The compiled form means what the language says. */
  lemma {:induction false} ReadingsAgree(host: Host, e: Expr, tr: Trace)
    requires Clean(e)
    ensures Eval(host, ByFlag, e, tr) == Eval(host, ByGrammar, e, tr)
    decreases e
  {
    match e
    case Const(_) =>
    case Unary(_, e1) =>
      ReadingsAgree(host, e1, tr);
    case Binary(_, l, r) =>
      ReadingsAgree(host, l, tr);
      ReadingsAgree(host, r, Eval(host, ByGrammar, l, tr).1);
    case Compare(op, l, r) =>
      ReadingsAgree(host, l, tr);
      ReadingsAgree(host, r, Eval(host, ByGrammar, l, tr).1);
      if l.Compare? {
        ComparisonValue(host, l, tr);
      }
    case AndOr(_, l, r) =>
      ReadingsAgree(host, l, tr);
      var (v, tr1) := Eval(host, ByGrammar, l, tr);
      ReadingsAgree(host, r, CallObj(host, tr1, v, BOOL, []).1);
  }

  /** The flag left behind by a unary operator does break the meaning: with a
      constant on the right, the compiled comparison agrees with the language if
      and only if its left operand is not such a unary expression; otherwise it
      differs for every host and every trace. */
  lemma FlaggedUnary(host: Host, op: Obj, l: Expr, k: Obj, tr: Trace)
    requires Clean(l)
    ensures Eval(host, ByFlag, Compare(op, l, Const(k)), tr) == Eval(host, ByGrammar, Compare(op, l, Const(k)), tr) <==>
            (CmpFlag(l) ==> l.Compare?)
  {
    var e := Compare(op, l, Const(k));
    if CmpFlag(l) ==> l.Compare? {
      ReadingsAgree(host, e, tr);
    } else {
      ReadingsAgree(host, l, tr);
      var (c, tr1) := Eval(host, ByGrammar, l, tr);
      var ev := Event(c, op, [NoKey, k]);
      assert Eval(host, ByGrammar, e, tr).1 == tr1 + [ev];
      if c == False {
        assert Eval(host, ByFlag, e, tr).1 == tr1;
        assert |tr1 + [ev]| != |tr1|;
      } else if c.CmpTrue? {
        assert Eval(host, ByFlag, e, tr).1 == tr1 + [Event(c.val, op, [NoKey, k])];
        assert (tr1 + [ev])[|tr1|] != (tr1 + [Event(c.val, op, [NoKey, k])])[|tr1|];
      } else {
        var a := host(tr1, Event(c, GETCMP, []));
        assert Eval(host, ByFlag, e, tr).1 == tr1 + [Event(c, GETCMP, [])] + [Event(a, op, [NoKey, k])];
        assert |tr1 + [Event(c, GETCMP, [])] + [Event(a, op, [NoKey, k])]| != |tr1 + [ev]|;
      }
    }
  }

  /** Programs of such expressions mean the same by either rule. */
  lemma {:induction false} ProgramsAgree(host: Host, s: Stmt, tr: Trace, fuel: nat)
    requires CleanStmt(s)
    ensures Exec(host, ByFlag, s, tr, fuel) == Exec(host, ByGrammar, s, tr, fuel)
    decreases fuel, s
  {
    match s
    case Pass =>
    case ExprStmt(e) =>
      ReadingsAgree(host, e, tr);
    case Seq(s1, s2) =>
      ProgramsAgree(host, s1, tr, fuel);
      var o := Exec(host, ByFlag, s1, tr, fuel);
      if o.Normal? { ProgramsAgree(host, s2, o.tr, fuel); }
    case If(arms) =>
      ArmsAgree(host, arms, tr, fuel);
    case While(tag, cond, body, els) =>
      if fuel > 0 {
        ReadingsAgree(host, cond, tr);
        var (v, tr1) := Eval(host, ByFlag, cond, tr);
        var (t, tr2) := CallObj(host, tr1, v, BOOL, []);
        if t == False {
          ProgramsAgree(host, els, tr2, fuel);
        } else {
          ProgramsAgree(host, body, tr2, fuel);
          var o := Exec(host, ByFlag, body, tr2, fuel);
          if !o.OutOfFuel? { ProgramsAgree(host, s, o.tr, fuel - 1); }
        }
      }
    case Break(_) =>
    case Continue(_) =>
  }

  lemma {:induction false} ArmsAgree(host: Host, arms: Arms, tr: Trace, fuel: nat)
    requires CleanArms(arms)
    ensures ExecArms(host, ByFlag, arms, tr, fuel) == ExecArms(host, ByGrammar, arms, tr, fuel)
    decreases fuel, arms
  {
    match arms
    case Else(s) =>
      ProgramsAgree(host, s, tr, fuel);
    case Arm(cond, body, rest) =>
      ReadingsAgree(host, cond, tr);
      var (v, tr1) := Eval(host, ByFlag, cond, tr);
      var (t, tr2) := CallObj(host, tr1, v, BOOL, []);
      if t == False { ArmsAgree(host, rest, tr2, fuel); } else { ProgramsAgree(host, body, tr2, fuel); }
  }

  /** The rule the compiled form of s follows: the generator's always, the
      grammar's when no flag is passed on. */
  predicate Reads(rule: Chaining, s: Stmt) {
    rule.ByFlag? || CleanStmt(s)
  }
}
