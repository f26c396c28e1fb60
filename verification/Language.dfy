/** The structured language: expressions and control statements, and what they
    mean. */
module Language {
  import opened Machine

  /** Comparison operators build comparisons, all other operators plain calls. */
  datatype Expr =
    | Const(obj: Obj)
    | Unary(op: Obj, e: Expr)
    | Binary(op: Obj, l: Expr, r: Expr)
    | Compare(op: Obj, l: Expr, r: Expr)
    | AndOr(isOr: bool, l: Expr, r: Expr)

  datatype Stmt =
    | Pass
    | ExprStmt(e: Expr)
    | Seq(s1: Stmt, s2: Stmt)
    | If(arms: Arms)
    | While(tag: string, cond: Expr, body: Stmt, els: Stmt)
    | Break(tag: string)
    | Continue(tag: string)

  /** if and elif arms in order, then the else block (Pass when there is none). */
  datatype Arms =
    | Else(s: Stmt)
    | Arm(cond: Expr, body: Stmt, rest: Arms)

  /** The label of unlabelled loops, breaks and continues. */
  const NO_LABEL: string := "~"

  /** Which comparisons continue a chain: those with a comparison as left operand,
      as the grammar has it, or those whose left operand's code block carries the
      comparison flag, as the code generator decides. */
  datatype Chaining = ByGrammar | ByFlag

  /** The cmp_expr flag of a code block. A unary operator extends its operand's
      block in place, so the flag survives it. */
  predicate CmpFlag(e: Expr) {
    e.Compare? || (e.Unary? && CmpFlag(e.e))
  }

  predicate Chained(rule: Chaining, l: Expr) {
    if rule.ByFlag? then CmpFlag(l) else l.Compare?
  }

  /** No loop carries a label. */
  predicate Unlabelled(s: Stmt) {
    match s
    case Seq(s1, s2) => Unlabelled(s1) && Unlabelled(s2)
    case If(arms) => UnlabelledArms(arms)
    case While(tag, _, body, els) => tag == NO_LABEL && Unlabelled(body) && Unlabelled(els)
    case _ => true
  }

  predicate UnlabelledArms(arms: Arms) {
    match arms
    case Else(s) => Unlabelled(s)
    case Arm(_, body, rest) => Unlabelled(body) && UnlabelledArms(rest)
  }

  /** A comparison's value: the last operand compared, as a true object, when the
      link held; False otherwise. */
  function Link(host: Host, tr: Trace, a: Obj, op: Obj, b: Obj): (Obj, Trace) {
    var (res, tr1) := CallObj(host, tr, a, op, [NoKey, b]);
    (if res == True then CmpTrue(b) else False, tr1)
  }

  /** Value and calls of an expression. A further link of a chain is not evaluated
      when the chain has failed, and compares the value the chain compared last. */
  function Eval(host: Host, rule: Chaining, e: Expr, tr: Trace): (Obj, Trace)
    decreases e
  {
    match e
    case Const(obj) => (obj, tr)
    case Unary(op, e1) =>
      var (v, tr1) := Eval(host, rule, e1, tr);
      CallObj(host, tr1, v, op, [])
    case Binary(op, l, r) =>
      var (a, tr1) := Eval(host, rule, l, tr);
      var (b, tr2) := Eval(host, rule, r, tr1);
      CallObj(host, tr2, a, op, [NoKey, b])
    case Compare(op, l, r) =>
      var (c, tr1) := Eval(host, rule, l, tr);
      if Chained(rule, l) && c == False then (False, tr1)
      else
        var (a, tr2) := if Chained(rule, l) then CallObj(host, tr1, c, GETCMP, []) else (c, tr1);
        var (b, tr3) := Eval(host, rule, r, tr2);
        Link(host, tr3, a, op, b)
    case AndOr(isOr, l, r) =>
      var (v, tr1) := Eval(host, rule, l, tr);
      var (t, tr2) := CallObj(host, tr1, v, BOOL, []);
      if t == (if isOr then True else False) then (v, tr2) else Eval(host, rule, r, tr2)
  }

  /** How a statement ends. */
  datatype Outcome =
    | Normal(tr: Trace)
    | Leave(isBreak: bool, tag: string, tr: Trace)
    | OutOfFuel

  /** A loop labelled L handles a break or continue with label l. */
  predicate Catches(L: string, l: string) {
    l == NO_LABEL || l == L
  }

  /** Run a statement with a bound on the loop turns. */
  function Exec(host: Host, rule: Chaining, s: Stmt, tr: Trace, fuel: nat): Outcome
    decreases fuel, s
  {
    match s
    case Pass => Normal(tr)
    case ExprStmt(e) => Normal(Eval(host, rule, e, tr).1)
    case Seq(s1, s2) =>
      var o := Exec(host, rule, s1, tr, fuel);
      if o.Normal? then Exec(host, rule, s2, o.tr, fuel) else o
    case If(arms) => ExecArms(host, rule, arms, tr, fuel)
    case While(tag, cond, body, els) =>
      if fuel == 0 then OutOfFuel
      else
        var (v, tr1) := Eval(host, rule, cond, tr);
        var (t, tr2) := CallObj(host, tr1, v, BOOL, []);
        if t == False then Exec(host, rule, els, tr2, fuel)
        else
          var o := Exec(host, rule, body, tr2, fuel);
          (match o
           case Normal(tr3) => Exec(host, rule, s, tr3, fuel - 1)
           case OutOfFuel => OutOfFuel
           case Leave(isBreak, l, tr3) =>
             if !Catches(tag, l) then o
             else if isBreak then Normal(tr3)
             else Exec(host, rule, s, tr3, fuel - 1))
    case Break(tag) => Leave(true, tag, tr)
    case Continue(tag) => Leave(false, tag, tr)
  }

  function ExecArms(host: Host, rule: Chaining, arms: Arms, tr: Trace, fuel: nat): Outcome
    decreases fuel, arms
  {
    match arms
    case Else(s) => Exec(host, rule, s, tr, fuel)
    case Arm(cond, body, rest) =>
      var (v, tr1) := Eval(host, rule, cond, tr);
      var (t, tr2) := CallObj(host, tr1, v, BOOL, []);
      if t == False then ExecArms(host, rule, rest, tr2, fuel) else Exec(host, rule, body, tr2, fuel)
  }
}
