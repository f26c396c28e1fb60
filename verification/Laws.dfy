/** What the control constructs mean, without reference to how their runs are
    computed: the truth of comparisons, and, or, if and while. */
module Laws {
  import opened Machine
  import opened Language
  import opened CodeShape
  import opened Chains
  import opened StmtCorrect
  import opened ProgramCorrect

  // ----- truth -----

  /** Objects answer the question for their truth with True or False, always the same
      way, and False answers False. */
  ghost predicate Honest(host: Host, truth: Obj -> bool) {
    && !truth(False)
    && forall tr: Trace, o: Obj :: host(tr, Event(o, BOOL, [])) == if truth(o) then True else False
  }

  /** An object's truth: a comparison that held is true, all others are asked. */
  predicate IsTrue(truth: Obj -> bool, o: Obj) {
    o.CmpTrue? || truth(o)
  }

  lemma AskTruth(host: Host, truth: Obj -> bool, tr: Trace, o: Obj)
    requires Honest(host, truth)
    ensures CallObj(host, tr, o, BOOL, []).0 == if IsTrue(truth, o) then True else False
    ensures CallObj(host, tr, o, BOOL, []).1 == if o.CmpTrue? then tr else tr + [Event(o, BOOL, [])]
  {
    var ev := Event(o, BOOL, []);
    assert host(tr, ev) == if truth(o) then True else False;
  }

  /** Every link of a chain answers True, asked in turn from the value a on. */
  predicate LinksHold(host: Host, rule: Chaining, tr: Trace, a: Obj, links: seq<ChainLink>)
    decreases |links|
  {
    links == [] ||
    var (b, tr1) := Eval(host, rule, links[0].e, tr);
    var ev := Event(a, links[0].op, [NoKey, b]);
    host(tr1, ev) == True && LinksHold(host, rule, tr1 + [ev], b, links[1..])
  }

  lemma {:induction false} ChainHolds(host: Host, rule: Chaining, tr: Trace, a: Obj, links: seq<ChainLink>)
    ensures var c := ChainFrom(host, rule, tr, a, links).0;
            if LinksHold(host, rule, tr, a, links) then c.CmpTrue? else c == False
    decreases |links|
  {
    if links != [] {
      var (b, tr1) := Eval(host, rule, links[0].e, tr);
      var ev := Event(a, links[0].op, [NoKey, b]);
      ChainHolds(host, rule, tr1 + [ev], b, links[1..]);
    }
  }

  /** A chain's truth is the conjunction of its links: asked, it gives True with no
      further call exactly when every link answered True; else it is the object False
      that is asked. */
  lemma ChainTruth(host: Host, rule: Chaining, tr: Trace, e0: Expr, links: seq<ChainLink>)
    requires !Chained(rule, e0) && links != []
    ensures var (a, tr1) := Eval(host, rule, e0, tr);
            var (c, tr2) := Eval(host, rule, ChainExpr(e0, links), tr);
            && (CallObj(host, tr2, c, BOOL, []) == (True, tr2) <==> LinksHold(host, rule, tr1, a, links))
            && (!LinksHold(host, rule, tr1, a, links) ==> c == False)
  {
    var (a, tr1) := Eval(host, rule, e0, tr);
    var (c, tr2) := Eval(host, rule, ChainExpr(e0, links), tr);
    ChainMeaning(host, rule, tr, e0, links);
    ChainHolds(host, rule, tr1, a, links);
    if c == False {
      assert |CallObj(host, tr2, c, BOOL, []).1| == |tr2| + 1;
    }
  }

  /** and is the conjunction, or the disjunction of the truths of its operands, and
      the right one is evaluated exactly when the left one does not decide. */
  lemma AndOrMeaning(host: Host, truth: Obj -> bool, rule: Chaining, isOr: bool, l: Expr, r: Expr, tr: Trace)
    requires Honest(host, truth)
    ensures var (v, tr1) := Eval(host, rule, l, tr);
            var tr2 := CallObj(host, tr1, v, BOOL, []).1;
            var (w, tr3) := Eval(host, rule, r, tr2);
            var (x, end) := Eval(host, rule, AndOr(isOr, l, r), tr);
            && (IsTrue(truth, x) <==> if isOr then IsTrue(truth, v) || IsTrue(truth, w) else IsTrue(truth, v) && IsTrue(truth, w))
            && end == if IsTrue(truth, v) == isOr then tr2 else tr3
  {
    var (v, tr1) := Eval(host, rule, l, tr);
    AskTruth(host, truth, tr1, v);
  }

  // ----- if and while -----

  /** if on a chain runs its first block exactly when every link held. */
  lemma IfChain(host: Host, rule: Chaining, tr: Trace, e0: Expr, links: seq<ChainLink>, s1: Stmt, s2: Stmt, fuel: nat)
    requires !Chained(rule, e0) && links != []
    requires forall t: Trace :: host(t, Event(False, BOOL, [])) == False
    ensures var (a, tr1) := Eval(host, rule, e0, tr);
            var tr2 := Eval(host, rule, ChainExpr(e0, links), tr).1;
            Exec(host, rule, If(Arm(ChainExpr(e0, links), s1, Else(s2))), tr, fuel)
            == if LinksHold(host, rule, tr1, a, links) then Exec(host, rule, s1, tr2, fuel)
               else Exec(host, rule, s2, tr2 + [Event(False, BOOL, [])], fuel)
  {
    ChainTruth(host, rule, tr, e0, links);
    var (a, tr1) := Eval(host, rule, e0, tr);
    var (c, tr2) := Eval(host, rule, ChainExpr(e0, links), tr);
    if !LinksHold(host, rule, tr1, a, links) {
      var ev := Event(False, BOOL, []);
      assert host(tr2, ev) == False && CallObj(host, tr2, c, BOOL, []) == (False, tr2 + [ev]);
      assert ExecArms(host, rule, Else(s2), tr2 + [ev], fuel) == Exec(host, rule, s2, tr2 + [ev], fuel);
    }
  }

  /** And so does its code: `if chain: e1 else: e2`, run from its first word, makes the
      calls of e1 when every link held and those of e2 when not. */
  lemma CompiledIfChain(host: Host, tr: Trace, stk: seq<Obj>, e0: Expr, links: seq<ChainLink>, e1: Expr, e2: Expr, n: nat, b: State)
    requires !CmpFlag(e0) && links != []
    requires forall t: Trace :: host(t, Event(False, BOOL, [])) == False
    requires StopsAfter(StmtCode(If(Arm(ChainExpr(e0, links), ExprStmt(e1), Else(ExprStmt(e2))))), host, State(0, stk, tr), n, b)
    ensures var (a, tr1) := Eval(host, ByFlag, e0, tr);
            var tr2 := Eval(host, ByFlag, ChainExpr(e0, links), tr).1;
            b.trace == if LinksHold(host, ByFlag, tr1, a, links) then Eval(host, ByFlag, e1, tr2).1
                       else Eval(host, ByFlag, e2, tr2 + [Event(False, BOOL, [])]).1
  {
    var s := If(Arm(ChainExpr(e0, links), ExprStmt(e1), Else(ExprStmt(e2))));
    IfChain(host, ByFlag, tr, e0, links, ExprStmt(e1), ExprStmt(e2), 0);
    StopsWhereProgramEnds(host, ByFlag, s, stk, tr, n, b, 0);
  }

  /** The statement ends with this outcome, whatever the bound on loop turns. */
  ghost predicate EndsWith(host: Host, rule: Chaining, s: Stmt, tr: Trace, out: Outcome) {
    !out.OutOfFuel? && exists fuel: nat :: Exec(host, rule, s, tr, fuel) == out
  }

  lemma EndsOnce(host: Host, rule: Chaining, s: Stmt, tr: Trace, out: Outcome, fuel: nat)
    requires EndsWith(host, rule, s, tr, out)
    ensures Exec(host, rule, s, tr, fuel) == out || Exec(host, rule, s, tr, fuel).OutOfFuel?
  {
    var f: nat :| Exec(host, rule, s, tr, f) == out;
    if f <= fuel {
      MoreIsSame(host, rule, s, tr, f, fuel);
    } else if !Exec(host, rule, s, tr, fuel).OutOfFuel? {
      MoreIsSame(host, rule, s, tr, fuel, f);
    }
  }

  /** What a sequence does after its first statement has ended so. */
  ghost predicate AfterFirst(host: Host, rule: Chaining, s2: Stmt, o: Outcome, out: Outcome) {
    if o.Normal? then EndsWith(host, rule, s2, o.tr, out) else out == o
  }

  /** The rule of sequences: the second statement only after a normal end of the first. */
  lemma SeqRule(host: Host, rule: Chaining, s1: Stmt, s2: Stmt, tr: Trace, out: Outcome)
    ensures EndsWith(host, rule, Seq(s1, s2), tr, out) <==>
            exists o :: EndsWith(host, rule, s1, tr, o) && AfterFirst(host, rule, s2, o, out)
  {
    if EndsWith(host, rule, Seq(s1, s2), tr, out) {
      var f: nat :| Exec(host, rule, Seq(s1, s2), tr, f) == out;
      var o := Exec(host, rule, s1, tr, f);
      assert Exec(host, rule, Seq(s1, s2), tr, f) == if o.Normal? then Exec(host, rule, s2, o.tr, f) else o;
      assert EndsWith(host, rule, s1, tr, o) && AfterFirst(host, rule, s2, o, out);
    }
    if o :| EndsWith(host, rule, s1, tr, o) && AfterFirst(host, rule, s2, o, out) {
      FirstThen(host, rule, s1, s2, tr, o, out);
    }
  }

  lemma FirstThen(host: Host, rule: Chaining, s1: Stmt, s2: Stmt, tr: Trace, o: Outcome, out: Outcome)
    requires EndsWith(host, rule, s1, tr, o) && AfterFirst(host, rule, s2, o, out)
    ensures EndsWith(host, rule, Seq(s1, s2), tr, out)
  {
    var f: nat :| Exec(host, rule, s1, tr, f) == o;
    var g: nat := 0;
    if o.Normal? {
      g :| Exec(host, rule, s2, o.tr, g) == out;
      MoreIsSame(host, rule, s2, o.tr, g, f + g);
    }
    MoreIsSame(host, rule, s1, tr, f, f + g);
    assert Exec(host, rule, Seq(s1, s2), tr, f + g) == if o.Normal? then Exec(host, rule, s2, o.tr, f + g) else o;
  }

  /** The rule of if: the first block whose condition is true, else the last. */
  lemma IfRule(host: Host, truth: Obj -> bool, rule: Chaining, arms: Arms, tr: Trace, out: Outcome)
    requires Honest(host, truth)
    ensures arms.Else? ==> (EndsWith(host, rule, If(arms), tr, out) <==> EndsWith(host, rule, arms.s, tr, out))
    ensures arms.Arm? ==>
              var (v, tr1) := Eval(host, rule, arms.cond, tr);
              var tr2 := CallObj(host, tr1, v, BOOL, []).1;
              EndsWith(host, rule, If(arms), tr, out) <==>
                if IsTrue(truth, v) then EndsWith(host, rule, arms.body, tr2, out) else EndsWith(host, rule, If(arms.rest), tr2, out)
  {
    match arms
    case Else(s) =>
      assert forall f: nat :: Exec(host, rule, If(arms), tr, f) == Exec(host, rule, s, tr, f);
    case Arm(cond, body, rest) =>
      var (v, tr1) := Eval(host, rule, cond, tr);
      AskTruth(host, truth, tr1, v);
      var tr2 := CallObj(host, tr1, v, BOOL, []).1;
      if IsTrue(truth, v) {
        assert forall f: nat :: Exec(host, rule, If(arms), tr, f) == Exec(host, rule, body, tr2, f);
      } else {
        assert forall f: nat :: Exec(host, rule, If(arms), tr, f) == Exec(host, rule, If(rest), tr2, f);
      }
  }

  /** What a loop does after its body has ended so: round again, out by a break of its
      own, or on with a jump that is not its own. */
  ghost predicate AfterTurn(host: Host, rule: Chaining, w: Stmt, o: Outcome, out: Outcome)
    requires w.While?
  {
    match o
    case Normal(t) => EndsWith(host, rule, w, t, out)
    case Leave(isBreak, l, t) =>
      if l != NO_LABEL && l != w.tag then out == o
      else if isBreak then out == Normal(t)
      else EndsWith(host, rule, w, t, out)
    case OutOfFuel => false
  }

  /** The rule of while, for objects that answer True or False: the else block when the
      condition is false, else a turn and what follows it. */
  lemma WhileRule(host: Host, truth: Obj -> bool, rule: Chaining, w: Stmt, tr: Trace, out: Outcome)
    requires Honest(host, truth) && w.While?
    ensures var (v, tr1) := Eval(host, rule, w.cond, tr);
            var tr2 := CallObj(host, tr1, v, BOOL, []).1;
            EndsWith(host, rule, w, tr, out) <==>
              if IsTrue(truth, v) then exists o :: EndsWith(host, rule, w.body, tr2, o) && AfterTurn(host, rule, w, o, out)
              else EndsWith(host, rule, w.els, tr2, out)
  {
    var (v, tr1) := Eval(host, rule, w.cond, tr);
    AskTruth(host, truth, tr1, v);
    var (t, tr2) := CallObj(host, tr1, v, BOOL, []);
    if EndsWith(host, rule, w, tr, out) {
      var f: nat :| Exec(host, rule, w, tr, f) == out;
      ExecWhile(host, rule, w, tr, f, t, tr2);
      if IsTrue(truth, v) { TurnEnds(host, rule, w, tr2, out, f); }
    }
    if !IsTrue(truth, v) && EndsWith(host, rule, w.els, tr2, out) {
      ElseEnds(host, rule, w, tr, t, tr2, out);
    }
    if IsTrue(truth, v) {
      if o :| EndsWith(host, rule, w.body, tr2, o) && AfterTurn(host, rule, w, o, out) {
        TurnThen(host, rule, w, tr, t, tr2, o, out);
      }
    }
  }

  lemma TurnEnds(host: Host, rule: Chaining, w: Stmt, tr: Trace, out: Outcome, f: nat)
    requires w.While? && f > 0 && AfterBody(host, rule, w, tr, f) == out && !out.OutOfFuel?
    ensures exists o :: EndsWith(host, rule, w.body, tr, o) && AfterTurn(host, rule, w, o, out)
  {
    var o := Exec(host, rule, w.body, tr, f);
    assert EndsWith(host, rule, w.body, tr, o);
    assert AfterTurn(host, rule, w, o, out);
  }

  lemma ElseEnds(host: Host, rule: Chaining, w: Stmt, tr: Trace, t: Obj, tr2: Trace, out: Outcome)
    requires w.While? && Asked(host, rule, w.cond, tr, t, tr2) && t == False && EndsWith(host, rule, w.els, tr2, out)
    ensures EndsWith(host, rule, w, tr, out)
  {
    var f: nat :| Exec(host, rule, w.els, tr2, f) == out;
    MoreIsSame(host, rule, w.els, tr2, f, f + 1);
    ExecWhile(host, rule, w, tr, f + 1, t, tr2);
  }

  lemma TurnThen(host: Host, rule: Chaining, w: Stmt, tr: Trace, t: Obj, tr2: Trace, o: Outcome, out: Outcome)
    requires w.While? && Asked(host, rule, w.cond, tr, t, tr2) && t != False
    requires EndsWith(host, rule, w.body, tr2, o) && AfterTurn(host, rule, w, o, out)
    ensures EndsWith(host, rule, w, tr, out)
  {
    var f: nat :| Exec(host, rule, w.body, tr2, f) == o;
    var g: nat := 0;
    if Again(w.tag, o) {
      g :| Exec(host, rule, w, o.tr, g) == out;
      MoreIsSame(host, rule, w, o.tr, g, f + g);
    }
    MoreIsSame(host, rule, w.body, tr2, f, f + g + 1);
    ExecWhile(host, rule, w, tr, f + g + 1, t, tr2);
  }
}
