/** Statements: running the patched code from its first word follows the
    structured program, for every nesting of if, while, break and continue. */
module StmtCorrect {
  import opened Machine
  import opened Language
  import opened CodeShape
  import opened ExprCorrect

  // ----- unresolved jumps -----

  predicate IsJump(w: Word) {
    w.Op? && (w.op == BREAK || w.op == CONTINUE)
  }

  /** Every break or continue word is followed by its label, and labels stand
      nowhere else. */
  ghost predicate Paired(c: seq<Word>) {
    && (forall i :: 0 <= i < |c| && IsJump(c[i]) ==> i + 1 < |c| && c[i + 1].Str?)
    && (forall i :: 0 <= i < |c| && c[i].Str? ==> i > 0 && IsJump(c[i - 1]))
  }

  ghost predicate NoJumps(c: seq<Word>) {
    forall i :: 0 <= i < |c| ==> !IsJump(c[i]) && !c[i].Str?
  }

  lemma PairedConcat(a: seq<Word>, b: seq<Word>)
    requires Paired(a) && Paired(b)
    ensures Paired(a + b)
  {
    var c := a + b;
    forall i | 0 <= i < |c| && IsJump(c[i])
      ensures i + 1 < |c| && c[i + 1].Str?
    {
      if i >= |a| { assert IsJump(b[i - |a|]); } else { assert IsJump(a[i]); }
    }
    forall i | 0 <= i < |c| && c[i].Str?
      ensures i > 0 && IsJump(c[i - 1])
    {
      if i >= |a| { assert b[i - |a|].Str?; } else { assert a[i].Str?; }
    }
  }

  lemma NoJumpsConcat(a: seq<Word>, b: seq<Word>)
    requires NoJumps(a) && NoJumps(b)
    ensures NoJumps(a + b)
  {
  }

  lemma {:induction false} ExprNoJumps(e: Expr)
    ensures NoJumps(ExprCode(e))
    decreases e
  {
    match e
    case Const(_) =>
    case Unary(op, e1) =>
      ExprNoJumps(e1);
    case Binary(op, l, r) =>
      ExprNoJumps(l);
      ExprNoJumps(r);
    case Compare(op, l, r) =>
      ExprNoJumps(l);
      ExprNoJumps(r);
      CompareNoJumps(op, ExprCode(l), CmpFlag(l), ExprCode(r));
    case AndOr(isOr, l, r) =>
      ExprNoJumps(l);
      ExprNoJumps(r);
      AndOrNoJumps(isOr, ExprCode(l), ExprCode(r));
  }

  lemma CompareNoJumps(op: Obj, l: seq<Word>, chained: bool, r: seq<Word>)
    requires NoJumps(l) && NoJumps(r)
    ensures NoJumps(CompareCode(op, l, chained, r))
  {
    var m := if chained then ChainCode(|r| + 14) else [];
    NoJumpsConcat(l, m);
    NoJumpsConcat(l + m, r);
    NoJumpsConcat(l + m + r, LinkCode(op));
  }

  lemma AndOrNoJumps(isOr: bool, l: seq<Word>, r: seq<Word>)
    requires NoJumps(l) && NoJumps(r)
    ensures NoJumps(AndOrCode(isOr, l, r))
  {
    var t := TestCode(|r| + 4, if isOr then True else False);
    NoJumpsConcat(l, [Op(DUPLICATE, -1)]);
    NoJumpsConcat(l + [Op(DUPLICATE, -1)], t);
    NoJumpsConcat(l + [Op(DUPLICATE, -1)] + t, [Op(POP, 2)]);
    NoJumpsConcat(l + [Op(DUPLICATE, -1)] + t + [Op(POP, 2)], r);
    NoJumpsConcat(l + [Op(DUPLICATE, -1)] + t + [Op(POP, 2)] + r, [Op(BR, 2), Op(POP, 1)]);
  }

  lemma PatchedPaired(c: seq<Word>, tag: string)
    requires Paired(c)
    ensures Paired(Patched(c, tag))
  {
    var p := Patched(c, tag);
    forall i | 0 <= i < |p| && IsJump(p[i])
      ensures i + 1 < |p| && p[i + 1].Str?
    {
      assert p[i] == PatchedWord(c, tag, i) == c[i];
      assert p[i + 1] == PatchedWord(c, tag, i + 1);
    }
    forall i | 0 <= i < |p| && p[i].Str?
      ensures i > 0 && IsJump(p[i - 1])
    {
      assert p[i] == PatchedWord(c, tag, i) == c[i];
      assert IsJump(c[i - 1]);
      assert p[i - 1] == PatchedWord(c, tag, i - 1);
      assert i - 1 > 0 ==> !Handled(c, i - 2, tag);
    }
  }

  lemma {:induction false} StmtPaired(s: Stmt)
    ensures Paired(StmtCode(s))
    decreases s
  {
    match s
    case Pass =>
    case ExprStmt(e) =>
      ExprNoJumps(e);
    case Seq(s1, s2) =>
      StmtPaired(s1);
      StmtPaired(s2);
      PairedConcat(StmtCode(s1), StmtCode(s2));
    case If(arms) =>
      ArmsPaired(arms);
    case While(tag, cond, body, els) =>
      StmtPaired(body);
      PatchedPaired(StmtCode(body), tag);
      StmtPaired(els);
      ExprNoJumps(cond);
      WhilePaired(ExprCode(cond), Patched(StmtCode(body), tag), StmtCode(els));
    case Break(_) =>
    case Continue(_) =>
  }

  lemma {:induction false} ArmsPaired(arms: Arms)
    ensures Paired(ArmsCode(arms))
    decreases arms
  {
    match arms
    case Else(s) =>
      StmtPaired(s);
    case Arm(cond, body, rest) =>
      StmtPaired(body);
      ArmsPaired(rest);
      ExprNoJumps(cond);
      IfPaired(ExprCode(cond), StmtCode(body), ArmsCode(rest));
  }

  lemma IfPaired(c: seq<Word>, b: seq<Word>, r: seq<Word>)
    requires NoJumps(c) && Paired(b) && Paired(r)
    ensures Paired(IfCode(c, b, r))
  {
    var head := c + TestCode(|b| + 4, False) + [Op(POP, 1)];
    var mid := [Op(BR, |r| + 2), Op(POP, 1)];
    assert NoJumps(head);
    PairedConcat(head, b);
    PairedConcat(head + b, mid);
    PairedConcat(head + b + mid, r);
  }

  lemma WhilePaired(c: seq<Word>, b: seq<Word>, e: seq<Word>)
    requires NoJumps(c) && Paired(b) && Paired(e)
    ensures Paired(WhileCode(c, b, e))
  {
    var head := c + TestCode(|b| + 5, False) + [Op(POP, 1)];
    var mid := [Op(BR, -(|c| + 7 + |b|)), Op(BR, |e| + 2), Op(POP, 1)];
    assert NoJumps(head);
    PairedConcat(head, b);
    PairedConcat(head + b, mid);
    PairedConcat(head + b + mid, e);
  }

  // ----- code in place -----

  /** Where the breaks and continues that enclosing loops handle lead. */
  type Targets = map<(bool, string), int>

  /** Word i of block c, standing at o, once the enclosing loops have patched it. */
  function Resolved(c: seq<Word>, i: nat, o: int, t: Targets): Word
    requires i < |c|
  {
    if IsJump(c[i]) && i + 1 < |c| && c[i + 1].Str? && (c[i].op == BREAK, c[i + 1].text) in t then
      Op(BR, t[(c[i].op == BREAK, c[i + 1].text)] - (o + i))
    else if c[i].Str? && i > 0 && IsJump(c[i - 1]) && (c[i - 1].op == BREAK, c[i].text) in t then
      Op(NOP, 1)
    else c[i]
  }

  ghost predicate Placed(F: seq<Word>, o: nat, c: seq<Word>, t: Targets) {
    o + |c| <= |F| && forall i :: 0 <= i < |c| ==> F[o + i] == Resolved(c, i, o, t)
  }

  lemma PlacedSplit(F: seq<Word>, o: nat, a: seq<Word>, b: seq<Word>, t: Targets)
    requires Paired(a) && Paired(b) && Placed(F, o, a + b, t)
    ensures Placed(F, o, a, t) && Placed(F, o + |a|, b, t)
  {
    var c := a + b;
    forall i | 0 <= i < |a|
      ensures F[o + i] == Resolved(a, i, o, t)
    {
      assert F[o + i] == Resolved(c, i, o, t) && c[i] == a[i];
      if i + 1 < |a| { assert c[i + 1] == a[i + 1]; }
      if i > 0 { assert c[i - 1] == a[i - 1]; }
    }
    var ob := o + |a|;
    forall i | 0 <= i < |b|
      ensures F[ob + i] == Resolved(b, i, ob, t)
    {
      var k := |a| + i;
      assert F[o + k] == Resolved(c, k, o, t) && c[k] == b[i];
      if i + 1 < |b| { assert c[k + 1] == b[i + 1]; }
      if i > 0 { assert c[k - 1] == b[i - 1]; }
    }
  }

  lemma PlacedPlain(F: seq<Word>, o: nat, c: seq<Word>, t: Targets)
    requires NoJumps(c) && Placed(F, o, c, t)
    ensures At(F, o, c)
  {
    forall i | 0 <= i < |c|
      ensures F[o + i] == c[i]
    {
      assert F[o + i] == Resolved(c, i, o, t);
    }
  }

  /** The targets inside a loop body of `len` words at o: break leads to the word
      after the back jump, continue to the back jump. */
  function LoopTargets(t: Targets, tag: string, end: int): Targets {
    t[(true, NO_LABEL) := end + 1][(true, tag) := end + 1][(false, NO_LABEL) := end][(false, tag) := end]
  }

  lemma LoopTarget(t: Targets, tag: string, end: int, isBreak: bool, l: string)
    ensures var t' := LoopTargets(t, tag, end);
            if Catches(tag, l) then (isBreak, l) in t' && t'[(isBreak, l)] == end + (if isBreak then 1 else 0)
            else ((isBreak, l) in t' <==> (isBreak, l) in t) && ((isBreak, l) in t ==> t'[(isBreak, l)] == t[(isBreak, l)])
  {
  }

  /** Patching by the loop is resolving with the loop's targets: the in-place
      rewrite puts exactly the right distance into every word, whatever is left
      for the loops outside. */
  lemma PlacedPatched(F: seq<Word>, o: nat, c: seq<Word>, tag: string, t: Targets)
    requires Paired(c) && Placed(F, o, Patched(c, tag), t)
    ensures Placed(F, o, c, LoopTargets(t, tag, o + |c|))
  {
    var p, t' := Patched(c, tag), LoopTargets(t, tag, o + |c|);
    forall i | 0 <= i < |c|
      ensures F[o + i] == Resolved(c, i, o, t')
    {
      PatchedIsResolved(c, tag, i, o, t);
      assert F[o + i] == Resolved(p, i, o, t);
    }
  }

  lemma PatchedIsResolved(c: seq<Word>, tag: string, i: nat, o: int, t: Targets)
    requires Paired(c) && i < |c|
    ensures Resolved(Patched(c, tag), i, o, t) == Resolved(c, i, o, LoopTargets(t, tag, o + |c|))
  {
    var p, t' := Patched(c, tag), LoopTargets(t, tag, o + |c|);
    assert p[i] == PatchedWord(c, tag, i);
    if IsJump(c[i]) {
      var l := c[i + 1].text;
      LoopTarget(t, tag, o + |c|, c[i].op == BREAK, l);
      assert p[i + 1] == PatchedWord(c, tag, i + 1);
      assert i > 0 ==> !IsJump(c[i - 1]);
      assert !c[i].Str?;
    } else if c[i].Str? {
      LoopTarget(t, tag, o + |c|, c[i - 1].op == BREAK, c[i].text);
      assert p[i - 1] == PatchedWord(c, tag, i - 1);
      assert i > 1 ==> !IsJump(c[i - 2]);
    } else {
      assert i > 0 ==> !IsJump(c[i - 1]);
      if i > 0 { assert p[i - 1] == PatchedWord(c, tag, i - 1); }
    }
  }

  // ----- running -----

  /** Runs of the machine, as a relation the proofs below only compose. */
  type Rel = (State, nat, State) -> bool

  ghost predicate Sound(F: seq<Word>, host: Host, G: Rel) {
    forall a, n, b {:trigger G(a, n, b), Goes(F, host, a, n, b)} :: G(a, n, b) <==> Goes(F, host, a, n, b)
  }

  lemma Chain(F: seq<Word>, host: Host, G: Rel, a: State, m: nat, b: State, n: nat, c: State)
    requires Sound(F, host, G) && G(a, m, b) && G(b, n, c)
    ensures G(a, m + n, c)
  {
    assert Goes(F, host, a, m, b) && Goes(F, host, b, n, c);
    GoesOn(F, host, a, m, b, n, c);
    assert Goes(F, host, a, m + n, c);
  }

  lemma Stay(F: seq<Word>, host: Host, G: Rel, a: State)
    requires Sound(F, host, G)
    ensures G(a, 0, a)
  {
    NoStep(F, host, a);
    assert Goes(F, host, a, 0, a);
  }

  lemma Jump(F: seq<Word>, host: Host, G: Rel, o: nat, dist: int, stk: seq<Obj>, tr: Trace)
    requires Sound(F, host, G) && o < |F| && F[o] == Op(BR, dist)
    ensures G(State(o, stk, tr), 1, State(o + dist, stk, tr))
  {
    DoBr(F, host, o, dist, stk, tr);
    assert Goes(F, host, State(o, stk, tr), 1, State(o + dist, stk, tr));
  }

  /** The machine stands before an unresolved jump. */
  ghost predicate StandsBefore(F: seq<Word>, pc: int, isBreak: bool) {
    0 <= pc < |F| && F[pc] == Op(if isBreak then BREAK else CONTINUE, 0)
  }

  ghost predicate Lasts(G: Rel, a: State, n: nat) {
    exists b :: G(a, n, b)
  }

  /** From a, n turns follow the outcome: to the end with the stack restored, to
      the target of the jump, to an unresolved jump, or, when the program needs
      more loop turns than `fuel`, through at least that many turns. */
  ghost predicate Follows(F: seq<Word>, G: Rel, a: State, end: int, t: Targets, stk: seq<Obj>, out: Outcome, fuel: nat, n: nat) {
    match out
    case Normal(tr) => G(a, n, State(end, stk, tr))
    case Leave(isBreak, l, tr) =>
      if (isBreak, l) in t then G(a, n, State(t[(isBreak, l)], stk, tr))
      else exists pc :: StandsBefore(F, pc, isBreak) && G(a, n, State(pc, stk, tr))
    case OutOfFuel => n >= fuel && Lasts(G, a, n)
  }

  lemma FollowsAfter(F: seq<Word>, host: Host, G: Rel, a: State, m: nat, b: State, end: int, t: Targets, stk: seq<Obj>,
                     out: Outcome, fuel: nat, n: nat)
    requires Sound(F, host, G)
    requires G(a, m, b) && Follows(F, G, b, end, t, stk, out, fuel, n)
    ensures Follows(F, G, a, end, t, stk, out, fuel, m + n)
  {
    match out
    case Normal(tr) =>
      Chain(F, host, G, a, m, b, n, State(end, stk, tr));
    case Leave(isBreak, l, tr) =>
      if (isBreak, l) in t {
        Chain(F, host, G, a, m, b, n, State(t[(isBreak, l)], stk, tr));
      } else {
        var pc :| StandsBefore(F, pc, isBreak) && G(b, n, State(pc, stk, tr));
        Chain(F, host, G, a, m, b, n, State(pc, stk, tr));
      }
    case OutOfFuel =>
      var c :| G(b, n, c);
      Chain(F, host, G, a, m, b, n, c);
  }

  // ----- the fixed words of if and while -----

  /** A condition's code, its truth test, and a POP at either end of the branch. */
  ghost predicate CondAt(F: seq<Word>, o: nat, c: seq<Word>, dist: nat) {
    && At(F, o, c) && At(F, o + |c|, TestCode(dist, False))
    && At(F, o + |c| + 6, [Op(POP, 1)]) && At(F, o + |c| + 4 + dist, [Op(POP, 1)])
  }

  /** Behind an arm's body of bl words: the jump over the rl words of the rest. */
  ghost predicate SkipAt(F: seq<Word>, k: nat, bl: nat, rl: nat) {
    At(F, k + bl, [Op(BR, rl + 2)])
  }

  /** Behind a loop's body: the jump back to o and the one over the else block. */
  ghost predicate BackAt(F: seq<Word>, o: nat, k: nat, bl: nat, el: nat) {
    At(F, k + bl, [Op(BR, o - (k + bl))]) && At(F, k + bl + 1, [Op(BR, el + 2)])
  }

  lemma IfSplit(F: seq<Word>, o: nat, c: seq<Word>, b: seq<Word>, r: seq<Word>, t: Targets)
    requires NoJumps(c) && Paired(b) && Paired(r) && Placed(F, o, IfCode(c, b, r), t)
    ensures CondAt(F, o, c, |b| + 4) && SkipAt(F, o + |c| + 7, |b|, |r|)
    ensures Placed(F, o + |c| + 7, b, t) && Placed(F, o + |c| + 7 + |b| + 2, r, t)
  {
    var T, P := TestCode(|b| + 4, False), [Op(POP, 1)];
    var mid := [Op(BR, |r| + 2), Op(POP, 1)];
    var head := c + T + P;
    assert NoJumps(head) && NoJumps(mid);
    SplitFour(F, o, head, b, mid, r, t);
    HeadSplit(F, o, c, T, P);
    assert mid == [Op(BR, |r| + 2)] + [Op(POP, 1)];
    AtSplit(F, o + |head + b|, [Op(BR, |r| + 2)], [Op(POP, 1)]);
  }

  lemma WhileSplit(F: seq<Word>, o: nat, c: seq<Word>, b: seq<Word>, e: seq<Word>, t: Targets)
    requires NoJumps(c) && Paired(b) && Paired(e) && Placed(F, o, WhileCode(c, b, e), t)
    ensures CondAt(F, o, c, |b| + 5) && BackAt(F, o, o + |c| + 7, |b|, |e|)
    ensures Placed(F, o + |c| + 7, b, t) && Placed(F, o + |c| + 7 + |b| + 3, e, t)
  {
    var T, P := TestCode(|b| + 5, False), [Op(POP, 1)];
    var back, out := Op(BR, -(|c| + 7 + |b|)), Op(BR, |e| + 2);
    var mid := [back, out, Op(POP, 1)];
    var head := c + T + P;
    assert NoJumps(head) && NoJumps(mid);
    SplitFour(F, o, head, b, mid, e, t);
    HeadSplit(F, o, c, T, P);
    MidSplit(F, o + |head + b|, back, out, Op(POP, 1));
  }

  lemma HeadSplit(F: seq<Word>, o: nat, c: seq<Word>, T: seq<Word>, P: seq<Word>)
    requires At(F, o, c + T + P)
    ensures At(F, o, c) && At(F, o + |c|, T) && At(F, o + |c| + |T|, P)
  {
    AtSplit(F, o, c + T, P);
    AtSplit(F, o, c, T);
  }

  lemma MidSplit(F: seq<Word>, o: nat, x: Word, y: Word, z: Word)
    requires At(F, o, [x, y, z])
    ensures At(F, o, [x]) && At(F, o + 1, [y]) && At(F, o + 2, [z])
  {
    assert [x, y, z] == [x] + [y] + [z];
    HeadSplit(F, o, [x], [y], [z]);
  }

  /** A head without jumps, a body, a middle without jumps, and the rest. */
  lemma SplitFour(F: seq<Word>, o: nat, head: seq<Word>, b: seq<Word>, mid: seq<Word>, e: seq<Word>, t: Targets)
    requires NoJumps(head) && NoJumps(mid) && Paired(b) && Paired(e) && Placed(F, o, head + b + mid + e, t)
    ensures At(F, o, head) && Placed(F, o + |head|, b, t) && At(F, o + |head + b|, mid) && Placed(F, o + |head + b| + |mid|, e, t)
  {
    PairedConcat(head, b);
    PairedConcat(head + b, mid);
    PlacedSplit(F, o, head + b + mid, e, t);
    PlacedSplit(F, o, head + b, mid, t);
    PlacedSplit(F, o, head, b, t);
    PlacedPlain(F, o, head, t);
    PlacedPlain(F, o + |head + b|, mid, t);
  }

  /** The truth of a condition, asked of its value. */
  ghost predicate Asked(host: Host, rule: Chaining, cond: Expr, tr: Trace, t: Obj, tr': Trace) {
    var (v, tr1) := Eval(host, rule, cond, tr);
    (t, tr') == CallObj(host, tr1, v, BOOL, [])
  }

  /** Condition, truth test and the POP on either side of the branch: one and the
      same for if (slack 4) and while (slack 5). */
  lemma {:induction false} CondRuns(F: seq<Word>, host: Host, G: Rel, o: nat, cond: Expr, cl: nat, dist: nat, stk: seq<Obj>, tr: Trace)
    returns (n: nat, t: Obj, tr': Trace)
    requires Sound(F, host, G)
    requires cl == |ExprCode(cond)| && CondAt(F, o, ExprCode(cond), dist)
    ensures Asked(host, ByFlag, cond, tr, t, tr') && n > 0
    ensures G(State(o, stk, tr), n, State(o + cl + (if t == False then 5 + dist else 7), stk, tr'))
  {
    var n1 := ExprRuns(F, host, o, cond, stk, tr);
    var (v, tr1) := Eval(host, ByFlag, cond, tr);
    var (t0, tr0) := CallObj(host, tr1, v, BOOL, []);
    t, tr' := t0, tr0;
    Test(F, host, o + cl, dist, False, stk, v, tr1);
    var k := Branch(o + cl + 4, t == False, dist);
    GoesOn(F, host, State(o, stk, tr), n1, State(o + cl, stk + [v], tr1), 3, State(k, stk + [t], tr'));
    AtWord(F, k, [Op(POP, 1)], 0);
    DoPop(F, host, k, stk, [t], tr');
    GoesOn(F, host, State(o, stk, tr), n1 + 3, State(k, stk + [t], tr'), 1, State(k + 1, stk, tr'));
    n := n1 + 4;
    assert Goes(F, host, State(o, stk, tr), n, State(k + 1, stk, tr'));
  }

  // ----- the code of a statement, piece by piece -----

  function StmtLen(s: Stmt): nat {
    match s
    case Pass => 0
    case ExprStmt(e) => |ExprCode(e)| + 1
    case Seq(s1, s2) => StmtLen(s1) + StmtLen(s2)
    case If(arms) => ArmsLen(arms)
    case While(_, cond, body, els) => |ExprCode(cond)| + 10 + StmtLen(body) + StmtLen(els)
    case Break(_) => 2
    case Continue(_) => 2
  }

  function ArmsLen(arms: Arms): nat {
    match arms
    case Else(s) => StmtLen(s)
    case Arm(cond, body, rest) => |ExprCode(cond)| + 9 + StmtLen(body) + ArmsLen(rest)
  }

  /** A break or continue as it stands once the loops around it are compiled. */
  ghost predicate JumpAt(F: seq<Word>, o: nat, isBreak: bool, tag: string, t: Targets) {
    && o < |F|
    && F[o] == if (isBreak, tag) in t then Op(BR, t[(isBreak, tag)] - o) else Op(if isBreak then BREAK else CONTINUE, 0)
  }

  /** The code of s stands at o, its jumps resolved to the targets. */
  ghost predicate StmtAt(F: seq<Word>, o: nat, s: Stmt, t: Targets)
    decreases s
  {
    match s
    case Pass => true
    case ExprStmt(e) => At(F, o, ExprCode(e)) && At(F, o + |ExprCode(e)|, [Op(POP, 1)])
    case Seq(s1, s2) => StmtAt(F, o, s1, t) && StmtAt(F, o + StmtLen(s1), s2, t)
    case If(arms) => ArmsAt(F, o, arms, t)
    case While(tag, cond, body, els) =>
      var cl, bl := |ExprCode(cond)|, StmtLen(body);
      var k := o + cl + 7;
      && CondAt(F, o, ExprCode(cond), bl + 5) && BackAt(F, o, k, bl, StmtLen(els))
      && StmtAt(F, k, body, LoopTargets(t, tag, k + bl)) && StmtAt(F, k + bl + 3, els, t)
    case Break(tag) => JumpAt(F, o, true, tag, t)
    case Continue(tag) => JumpAt(F, o, false, tag, t)
  }

  ghost predicate ArmsAt(F: seq<Word>, o: nat, arms: Arms, t: Targets)
    decreases arms
  {
    match arms
    case Else(s) => StmtAt(F, o, s, t)
    case Arm(cond, body, rest) =>
      var cl, bl := |ExprCode(cond)|, StmtLen(body);
      var k := o + cl + 7;
      && CondAt(F, o, ExprCode(cond), bl + 4) && SkipAt(F, k, bl, ArmsLen(rest))
      && StmtAt(F, k, body, t) && ArmsAt(F, k + bl + 2, rest, t)
  }

  lemma {:induction false} StmtLength(s: Stmt)
    ensures |StmtCode(s)| == StmtLen(s)
    decreases s
  {
    match s
    case Pass =>
    case ExprStmt(_) =>
    case Seq(s1, s2) =>
      StmtLength(s1);
      StmtLength(s2);
    case If(arms) =>
      ArmsLength(arms);
    case While(_, _, body, els) =>
      StmtLength(body);
      StmtLength(els);
    case Break(_) =>
    case Continue(_) =>
  }

  lemma {:induction false} ArmsLength(arms: Arms)
    ensures |ArmsCode(arms)| == ArmsLen(arms)
    decreases arms
  {
    match arms
    case Else(s) =>
      StmtLength(s);
    case Arm(_, body, rest) =>
      StmtLength(body);
      ArmsLength(rest);
  }

  /** Contiguous compiled code, patched loop by loop, is laid out as the recursion
      over the statement says. */
  lemma {:induction false} StmtPlaced(F: seq<Word>, o: nat, s: Stmt, t: Targets)
    requires Placed(F, o, StmtCode(s), t)
    ensures StmtAt(F, o, s, t)
    decreases s, 1
  {
    match s
    case Pass =>
    case ExprStmt(e) =>
      ExprStmtPlaced(F, o, ExprCode(e), t, e);
    case Seq(s1, s2) =>
      var k := SeqPlaced(F, o, s1, s2, t);
      StmtPlaced(F, o, s1, t);
      StmtPlaced(F, k, s2, t);
    case If(arms) =>
      ArmsPlaced(F, o, arms, t);
    case While(tag, cond, body, els) =>
      LoopLaid(F, o, tag, cond, body, els, t);
    case Break(tag) =>
      JumpPlaced(F, o, BREAK, tag, t);
    case Continue(tag) =>
      JumpPlaced(F, o, CONTINUE, tag, t);
  }

  lemma ExprStmtPlaced(F: seq<Word>, o: nat, c: seq<Word>, t: Targets, e: Expr)
    requires c == ExprCode(e) && Placed(F, o, c + [Op(POP, 1)], t)
    ensures At(F, o, c) && At(F, o + |c|, [Op(POP, 1)])
  {
    ExprNoJumps(e);
    PlacedPlain(F, o, c + [Op(POP, 1)], t);
    AtSplit(F, o, c, [Op(POP, 1)]);
  }

  lemma SeqPlaced(F: seq<Word>, o: nat, s1: Stmt, s2: Stmt, t: Targets) returns (k: nat)
    requires Placed(F, o, StmtCode(s1) + StmtCode(s2), t)
    ensures k == o + StmtLen(s1) && Placed(F, o, StmtCode(s1), t) && Placed(F, k, StmtCode(s2), t)
  {
    StmtPaired(s1);
    StmtPaired(s2);
    StmtLength(s1);
    k := o + |StmtCode(s1)|;
    PlacedSplit(F, o, StmtCode(s1), StmtCode(s2), t);
  }

  lemma {:induction false} LoopLaid(F: seq<Word>, o: nat, tag: string, cond: Expr, body: Stmt, els: Stmt, t: Targets)
    requires Placed(F, o, StmtCode(While(tag, cond, body, els)), t)
    ensures StmtAt(F, o, While(tag, cond, body, els), t)
    decreases While(tag, cond, body, els), 0
  {
    var c, b, e := WhilePlaced(F, o, tag, cond, body, els, t);
    StmtPlaced(F, o + |c| + 7, body, LoopTargets(t, tag, o + |c| + 7 + |b|));
    StmtPlaced(F, o + |c| + 7 + |b| + 3, els, t);
    StmtLength(body);
    StmtLength(els);
    LoopMade(F, o, tag, cond, body, els, t, c, b, e);
  }

  /** The pieces of a loop make up the loop. */
  lemma LoopMade(F: seq<Word>, o: nat, tag: string, cond: Expr, body: Stmt, els: Stmt, t: Targets,
                 c: seq<Word>, b: seq<Word>, e: seq<Word>)
    requires c == ExprCode(cond) && |b| == StmtLen(body) && |e| == StmtLen(els)
    requires CondAt(F, o, c, |b| + 5) && BackAt(F, o, o + |c| + 7, |b|, |e|)
    requires StmtAt(F, o + |c| + 7, body, LoopTargets(t, tag, o + |c| + 7 + |b|)) && StmtAt(F, o + |c| + 7 + |b| + 3, els, t)
    ensures StmtAt(F, o, While(tag, cond, body, els), t)
  {
    LoopClose(F, o, tag, cond, body, els, t, |c|, |b|, |e|);
  }

  lemma LoopClose(F: seq<Word>, o: nat, tag: string, cond: Expr, body: Stmt, els: Stmt, t: Targets, cl: nat, bl: nat, el: nat)
    requires bl == StmtLen(body) && el == StmtLen(els)
    requires cl == |ExprCode(cond)| && CondAt(F, o, ExprCode(cond), bl + 5) && BackAt(F, o, o + cl + 7, bl, el)
    requires StmtAt(F, o + cl + 7, body, LoopTargets(t, tag, o + cl + 7 + bl)) && StmtAt(F, o + cl + 7 + bl + 3, els, t)
    ensures StmtAt(F, o, While(tag, cond, body, els), t)
  {
  }

  lemma {:induction false} ArmsPlaced(F: seq<Word>, o: nat, arms: Arms, t: Targets)
    requires Placed(F, o, ArmsCode(arms), t)
    ensures ArmsAt(F, o, arms, t)
    decreases arms, 1
  {
    match arms
    case Else(s) =>
      StmtPlaced(F, o, s, t);
    case Arm(_, _, _) =>
      ArmLaid(F, o, arms, t);
  }

  lemma {:induction false} ArmLaid(F: seq<Word>, o: nat, arms: Arms, t: Targets)
    requires arms.Arm? && Placed(F, o, ArmsCode(arms), t)
    ensures ArmsAt(F, o, arms, t)
    decreases arms, 0
  {
    var body, rest := arms.body, arms.rest;
    var cl, bl, rl := ArmPlaced(F, o, arms, t);
    StmtPlaced(F, o + cl + 7, body, t);
    ArmsPlaced(F, o + cl + 7 + bl + 2, rest, t);
    ArmClose(F, o, arms.cond, body, rest, t, cl, bl, rl);
  }

  /** The pieces of an arm make up the arms from it on. */
  lemma ArmClose(F: seq<Word>, o: nat, cond: Expr, body: Stmt, rest: Arms, t: Targets, cl: nat, bl: nat, rl: nat)
    requires bl == StmtLen(body) && rl == ArmsLen(rest)
    requires cl == |ExprCode(cond)| && CondAt(F, o, ExprCode(cond), bl + 4) && SkipAt(F, o + cl + 7, bl, rl)
    requires StmtAt(F, o + cl + 7, body, t) && ArmsAt(F, o + cl + 7 + bl + 2, rest, t)
    ensures ArmsAt(F, o, Arm(cond, body, rest), t)
  {
  }

  lemma JumpPlaced(F: seq<Word>, o: nat, op: Opcode, tag: string, t: Targets)
    requires (op == BREAK || op == CONTINUE) && Placed(F, o, JumpCode(op, tag), t)
    ensures JumpAt(F, o, op == BREAK, tag, t)
  {
    var c := JumpCode(op, tag);
    assert F[o + 0] == Resolved(c, 0, o, t) && IsJump(c[0]) && c[1] == Str(tag);
  }

  lemma ArmPlaced(F: seq<Word>, o: nat, arms: Arms, t: Targets) returns (cl: nat, bl: nat, rl: nat)
    requires arms.Arm? && Placed(F, o, ArmsCode(arms), t)
    ensures bl == StmtLen(arms.body) && rl == ArmsLen(arms.rest)
    ensures cl == |ExprCode(arms.cond)| && CondAt(F, o, ExprCode(arms.cond), bl + 4) && SkipAt(F, o + cl + 7, bl, rl)
    ensures Placed(F, o + cl + 7, StmtCode(arms.body), t) && Placed(F, o + cl + 7 + bl + 2, ArmsCode(arms.rest), t)
  {
    var c, b, r := ExprCode(arms.cond), StmtCode(arms.body), ArmsCode(arms.rest);
    cl, bl, rl := |c|, |b|, |r|;
    ExprNoJumps(arms.cond);
    StmtPaired(arms.body);
    ArmsPaired(arms.rest);
    StmtLength(arms.body);
    ArmsLength(arms.rest);
    IfSplit(F, o, c, b, r, t);
  }

  lemma WhilePlaced(F: seq<Word>, o: nat, tag: string, cond: Expr, body: Stmt, els: Stmt, t: Targets)
    returns (c: seq<Word>, b: seq<Word>, e: seq<Word>)
    requires Placed(F, o, StmtCode(While(tag, cond, body, els)), t)
    ensures c == ExprCode(cond) && b == StmtCode(body) && e == StmtCode(els)
    ensures CondAt(F, o, c, |b| + 5) && BackAt(F, o, o + |c| + 7, |b|, |e|)
    ensures Placed(F, o + |c| + 7, b, LoopTargets(t, tag, o + |c| + 7 + |b|)) && Placed(F, o + |c| + 7 + |b| + 3, e, t)
  {
    c, b, e := ExprCode(cond), StmtCode(body), StmtCode(els);
    StmtPaired(body);
    StmtPaired(els);
    ExprNoJumps(cond);
    LoopPlaced(F, o, c, b, e, tag, t);
  }

  lemma LoopPlaced(F: seq<Word>, o: nat, c: seq<Word>, b: seq<Word>, e: seq<Word>, tag: string, t: Targets)
    requires NoJumps(c) && Paired(b) && Paired(e) && Placed(F, o, WhileCode(c, Patched(b, tag), e), t)
    ensures CondAt(F, o, c, |b| + 5) && BackAt(F, o, o + |c| + 7, |b|, |e|)
    ensures Placed(F, o + |c| + 7, b, LoopTargets(t, tag, o + |c| + 7 + |b|)) && Placed(F, o + |c| + 7 + |b| + 3, e, t)
  {
    PatchedPaired(b, tag);
    WhileSplit(F, o, c, Patched(b, tag), e, t);
    PlacedPatched(F, o + |c| + 7, b, tag, t);
  }

  // ----- the simulation -----

  /** Wherever a statement's code stands, patched by whatever loops enclose it, the
      machine follows the statement's outcome from the first word of the code. */
  lemma {:induction false} StmtRuns(F: seq<Word>, host: Host, G: Rel, o: nat, s: Stmt, t: Targets, stk: seq<Obj>, tr: Trace, fuel: nat)
    returns (n: nat)
    requires Sound(F, host, G)
    requires StmtAt(F, o, s, t)
    ensures Follows(F, G, State(o, stk, tr), o + StmtLen(s), t, stk, Exec(host, ByFlag, s, tr, fuel), fuel, n)
    decreases fuel, s, 3
  {
    match s
    case Pass =>
      n := 0;
      Stay(F, host, G, State(o, stk, tr));
    case ExprStmt(e) =>
      n := ExprStmtRuns(F, host, G, o, e, t, stk, tr);
    case Seq(s1, s2) =>
      n := SeqRuns(F, host, G, o, s1, s2, s, t, stk, tr, fuel);
    case If(arms) =>
      n := ArmsRun(F, host, G, o, arms, t, stk, tr, fuel);
    case While(_, _, _, _) =>
      n := WhileRuns(F, host, G, o, s, t, stk, tr, fuel);
    case Break(tag) =>
      n := JumpRuns(F, host, G, o, true, tag, t, stk, tr);
    case Continue(tag) =>
      n := JumpRuns(F, host, G, o, false, tag, t, stk, tr);
  }

  lemma JumpRuns(F: seq<Word>, host: Host, G: Rel, o: nat, isBreak: bool, tag: string, t: Targets, stk: seq<Obj>, tr: Trace)
    returns (n: nat)
    requires Sound(F, host, G)
    requires JumpAt(F, o, isBreak, tag, t)
    ensures Follows(F, G, State(o, stk, tr), o + 2, t, stk, Leave(isBreak, tag, tr), 0, n)
  {
    if (isBreak, tag) in t {
      Jump(F, host, G, o, t[(isBreak, tag)] - o, stk, tr);
      n := 1;
    } else {
      n := 0;
      Stay(F, host, G, State(o, stk, tr));
      assert StandsBefore(F, o, isBreak);
    }
  }

  lemma ExprStmtRuns(F: seq<Word>, host: Host, G: Rel, o: nat, e: Expr, t: Targets, stk: seq<Obj>, tr: Trace) returns (n: nat)
    requires Sound(F, host, G)
    requires At(F, o, ExprCode(e)) && At(F, o + |ExprCode(e)|, [Op(POP, 1)])
    ensures Follows(F, G, State(o, stk, tr), o + |ExprCode(e)| + 1, t, stk, Normal(Eval(host, ByFlag, e, tr).1), 0, n)
  {
    var n1 := ExprRuns(F, host, o, e, stk, tr);
    var (v, tr') := Eval(host, ByFlag, e, tr);
    var k := o + |ExprCode(e)|;
    AtWord(F, k, [Op(POP, 1)], 0);
    DoPop(F, host, k, stk, [v], tr');
    GoesOn(F, host, State(o, stk, tr), n1, State(k, stk + [v], tr'), 1, State(k + 1, stk, tr'));
    n := n1 + 1;
    assert Goes(F, host, State(o, stk, tr), n, State(k + 1, stk, tr'));
  }

  /** What a sequence does once its first statement has ended so. */
  function AndThen(host: Host, out: Outcome, s2: Stmt, fuel: nat): Outcome {
    if out.Normal? then Exec(host, ByFlag, s2, out.tr, fuel) else out
  }

  lemma {:induction false} SeqRuns(F: seq<Word>, host: Host, G: Rel, o: nat, s1: Stmt, s2: Stmt, s: Stmt, t: Targets,
                                   stk: seq<Obj>, tr: Trace, fuel: nat) returns (n: nat)
    requires Sound(F, host, G)
    requires s == Seq(s1, s2) && StmtAt(F, o, s1, t) && StmtAt(F, o + StmtLen(s1), s2, t)
    ensures Follows(F, G, State(o, stk, tr), o + StmtLen(s1) + StmtLen(s2), t, stk,
                    AndThen(host, Exec(host, ByFlag, s1, tr, fuel), s2, fuel), fuel, n)
    decreases fuel, s, 0
  {
    n := StmtRuns(F, host, G, o, s1, t, stk, tr, fuel);
    var out, mid := Exec(host, ByFlag, s1, tr, fuel), o + StmtLen(s1);
    if out.Normal? {
      n := RunsAfter(F, host, G, State(o, stk, tr), n, mid, s2, s, t, stk, out.tr, fuel);
    }
  }

  lemma {:induction false} ArmsRun(F: seq<Word>, host: Host, G: Rel, o: nat, arms: Arms, t: Targets, stk: seq<Obj>, tr: Trace, fuel: nat)
    returns (n: nat)
    requires Sound(F, host, G)
    requires ArmsAt(F, o, arms, t)
    ensures Follows(F, G, State(o, stk, tr), o + ArmsLen(arms), t, stk, ExecArms(host, ByFlag, arms, tr, fuel), fuel, n)
    decreases fuel, arms, 2
  {
    match arms
    case Else(s) =>
      n := StmtRuns(F, host, G, o, s, t, stk, tr, fuel);
    case Arm(cond, body, rest) =>
      var k, n1, v, tr' := ArmHead(F, host, G, o, arms, t, stk, tr);
      n := ArmRuns(F, host, G, o, k, StmtLen(body), ArmsLen(rest), arms, t, stk, tr, fuel, n1, v, tr');
  }

  lemma ArmHead(F: seq<Word>, host: Host, G: Rel, o: nat, arms: Arms, t: Targets, stk: seq<Obj>, tr: Trace)
    returns (k: nat, n1: nat, v: Obj, tr': Trace)
    requires Sound(F, host, G)
    requires arms.Arm? && ArmsAt(F, o, arms, t)
    ensures o + ArmsLen(arms) == k + StmtLen(arms.body) + 2 + ArmsLen(arms.rest) && ArmAt(F, k, arms, t)
    ensures Asked(host, ByFlag, arms.cond, tr, v, tr')
    ensures G(State(o, stk, tr), n1, State(if v == False then k + StmtLen(arms.body) + 2 else k, stk, tr'))
  {
    var cl := |ExprCode(arms.cond)|;
    ArmCond(F, o, arms, t);
    ArmBehind(F, o, arms, t);
    k := o + cl + 7;
    n1, v, tr' := CondRuns(F, host, G, o, arms.cond, cl, StmtLen(arms.body) + 4, stk, tr);
  }

  lemma ArmCond(F: seq<Word>, o: nat, arms: Arms, t: Targets)
    requires arms.Arm? && ArmsAt(F, o, arms, t)
    ensures CondAt(F, o, ExprCode(arms.cond), StmtLen(arms.body) + 4)
    ensures ArmsLen(arms) == |ExprCode(arms.cond)| + 9 + StmtLen(arms.body) + ArmsLen(arms.rest)
  {
    assert arms == Arm(arms.cond, arms.body, arms.rest);
    ArmPieces(F, o, arms.cond, arms.body, arms.rest, t);
  }

  lemma ArmBehind(F: seq<Word>, o: nat, arms: Arms, t: Targets)
    requires arms.Arm? && ArmsAt(F, o, arms, t)
    ensures ArmAt(F, o + |ExprCode(arms.cond)| + 7, arms, t)
  {
    assert arms == Arm(arms.cond, arms.body, arms.rest);
    ArmPieces(F, o, arms.cond, arms.body, arms.rest, t);
    ArmBlocks(F, o, arms.cond, arms.body, arms.rest, t);
  }

  /** The code of an arm behind its condition. */
  ghost predicate ArmAt(F: seq<Word>, k: nat, arms: Arms, t: Targets)
    requires arms.Arm?
  {
    var bl, rl := StmtLen(arms.body), ArmsLen(arms.rest);
    StmtAt(F, k, arms.body, t) && SkipAt(F, k, bl, rl) && ArmsAt(F, k + bl + 2, arms.rest, t)
  }

  lemma ArmPieces(F: seq<Word>, o: nat, cond: Expr, body: Stmt, rest: Arms, t: Targets)
    requires ArmsAt(F, o, Arm(cond, body, rest), t)
    ensures CondAt(F, o, ExprCode(cond), StmtLen(body) + 4)
    ensures SkipAt(F, o + |ExprCode(cond)| + 7, StmtLen(body), ArmsLen(rest))
  {
  }

  lemma ArmBlocks(F: seq<Word>, o: nat, cond: Expr, body: Stmt, rest: Arms, t: Targets)
    requires ArmsAt(F, o, Arm(cond, body, rest), t)
    ensures StmtAt(F, o + |ExprCode(cond)| + 7, body, t)
    ensures ArmsAt(F, o + |ExprCode(cond)| + 7 + StmtLen(body) + 2, rest, t)
  {
  }

  /** An arm once its condition is known. */
  lemma {:induction false} ArmRuns(F: seq<Word>, host: Host, G: Rel, o: nat, k: nat, bl: nat, rl: nat, arms: Arms, t: Targets,
                                   stk: seq<Obj>, tr: Trace, fuel: nat, n1: nat, v: Obj, tr': Trace) returns (n: nat)
    requires Sound(F, host, G)
    requires arms.Arm? && bl == StmtLen(arms.body) && rl == ArmsLen(arms.rest)
    requires ArmAt(F, k, arms, t)
    requires Asked(host, ByFlag, arms.cond, tr, v, tr')
    requires G(State(o, stk, tr), n1, State(if v == False then k + bl + 2 else k, stk, tr'))
    ensures Follows(F, G, State(o, stk, tr), k + bl + 2 + rl, t, stk, ExecArms(host, ByFlag, arms, tr, fuel), fuel, n)
    decreases fuel, arms, 0
  {
    var a, out, end := State(o, stk, tr), ExecArms(host, ByFlag, arms, tr, fuel), k + bl + 2 + rl;
    if v == False {
      var n2 := ArmsRun(F, host, G, k + bl + 2, arms.rest, t, stk, tr', fuel);
      FollowsAfter(F, host, G, a, n1, State(k + bl + 2, stk, tr'), end, t, stk, out, fuel, n2);
      n := n1 + n2;
    } else {
      var n2 := StmtRuns(F, host, G, k, arms.body, t, stk, tr', fuel);
      var n3 := ArmEnd(F, host, G, k, bl, rl, t, stk, tr', out, fuel, n2);
      FollowsAfter(F, host, G, a, n1, State(k, stk, tr'), end, t, stk, out, fuel, n3);
      n := n1 + n3;
    }
  }

  /** After an arm's body: skip the remaining arms. */
  lemma ArmEnd(F: seq<Word>, host: Host, G: Rel, k: nat, bl: nat, rl: nat, t: Targets, stk: seq<Obj>, tr: Trace,
               out: Outcome, fuel: nat, n2: nat) returns (n: nat)
    requires Sound(F, host, G)
    requires At(F, k + bl, [Op(BR, rl + 2)]) && Follows(F, G, State(k, stk, tr), k + bl, t, stk, out, fuel, n2)
    ensures Follows(F, G, State(k, stk, tr), k + bl + rl + 2, t, stk, out, fuel, n)
  {
    if out.Normal? {
      AtWord(F, k + bl, [Op(BR, rl + 2)], 0);
      Jump(F, host, G, k + bl, rl + 2, stk, out.tr);
      Chain(F, host, G, State(k, stk, tr), n2, State(k + bl, stk, out.tr), 1, State(k + bl + rl + 2, stk, out.tr));
      n := n2 + 1;
    } else {
      n := n2;
    }
  }

  /** The loop goes round again after this outcome of its body. */
  predicate Again(tag: string, out: Outcome) {
    out.Normal? || (out.Leave? && !out.isBreak && Catches(tag, out.tag))
  }

  /** The end of a loop body: one jump back to the condition. */
  lemma BodyAgain(F: seq<Word>, host: Host, G: Rel, o: nat, k: nat, bl: nat, tag: string, t: Targets, stk: seq<Obj>, tr: Trace,
                  out: Outcome, fuel: nat, n: nat)
    requires Sound(F, host, G)
    requires Again(tag, out) && At(F, k + bl, [Op(BR, o - (k + bl))])
    requires Follows(F, G, State(k, stk, tr), k + bl, LoopTargets(t, tag, k + bl), stk, out, fuel, n)
    ensures G(State(k, stk, tr), n + 1, State(o, stk, out.tr))
  {
    if out.Leave? { LoopTarget(t, tag, k + bl, out.isBreak, out.tag); }
    AtWord(F, k + bl, [Op(BR, o - (k + bl))], 0);
    Jump(F, host, G, k + bl, o - (k + bl), stk, out.tr);
    Chain(F, host, G, State(k, stk, tr), n, State(k + bl, stk, out.tr), 1, State(o, stk, out.tr));
  }

  /** The end of the loop by its body: a caught break skips the else block, any
      other jump keeps going out. */
  lemma BodyLeaves(F: seq<Word>, host: Host, G: Rel, k: nat, bl: nat, el: nat, tag: string, t: Targets, stk: seq<Obj>, tr: Trace,
                   out: Outcome, fuel: nat, n: nat) returns (m: nat)
    requires Sound(F, host, G)
    requires !Again(tag, out) && At(F, k + bl + 1, [Op(BR, el + 2)])
    requires Follows(F, G, State(k, stk, tr), k + bl, LoopTargets(t, tag, k + bl), stk, out, fuel, n)
    ensures var res := if out.Leave? && Catches(tag, out.tag) then Normal(out.tr) else out;
            Follows(F, G, State(k, stk, tr), k + bl + 3 + el, t, stk, res, fuel, m)
  {
    m := n;
    if out.Leave? {
      LoopTarget(t, tag, k + bl, out.isBreak, out.tag);
      if Catches(tag, out.tag) {
        AtWord(F, k + bl + 1, [Op(BR, el + 2)], 0);
        Jump(F, host, G, k + bl + 1, el + 2, stk, out.tr);
        Chain(F, host, G, State(k, stk, tr), n, State(k + bl + 1, stk, out.tr), 1, State(k + bl + 3 + el, stk, out.tr));
        m := n + 1;
      }
    }
  }

  lemma {:induction false} WhileRuns(F: seq<Word>, host: Host, G: Rel, o: nat, s: Stmt, t: Targets, stk: seq<Obj>, tr: Trace, fuel: nat)
    returns (n: nat)
    requires Sound(F, host, G)
    requires s.While? && StmtAt(F, o, s, t)
    ensures Follows(F, G, State(o, stk, tr), o + StmtLen(s), t, stk, Exec(host, ByFlag, s, tr, fuel), fuel, n)
    decreases fuel, s, 2
  {
    if fuel == 0 {
      n := 0;
      Stay(F, host, G, State(o, stk, tr));
    } else {
      var k, n1, v, tr' := WhileHead(F, host, G, o, s, t, stk, tr);
      ExecWhile(host, ByFlag, s, tr, fuel, v, tr');
      if v == False {
        n := ElseRuns(F, host, G, State(o, stk, tr), n1, o, k, s, t, stk, tr', fuel);
      } else {
        n := TrueRuns(F, host, G, State(o, stk, tr), n1, o, k, s, t, stk, tr', fuel, o + StmtLen(s), Exec(host, ByFlag, s, tr, fuel));
      }
    }
  }

  lemma WhileHead(F: seq<Word>, host: Host, G: Rel, o: nat, s: Stmt, t: Targets, stk: seq<Obj>, tr: Trace)
    returns (k: nat, n1: nat, v: Obj, tr': Trace)
    requires Sound(F, host, G)
    requires s.While? && StmtAt(F, o, s, t)
    ensures o + StmtLen(s) == k + StmtLen(s.body) + 3 + StmtLen(s.els) && LoopAt(F, o, k, s, t)
    ensures Asked(host, ByFlag, s.cond, tr, v, tr')
    ensures G(State(o, stk, tr), n1, State(if v == False then k + StmtLen(s.body) + 3 else k, stk, tr'))
  {
    var cl := LoopOpen(F, o, s, t);
    k := o + cl + 7;
    n1, v, tr' := CondRuns(F, host, G, o, s.cond, cl, StmtLen(s.body) + 5, stk, tr);
  }

  /** The code of a loop behind its condition. */
  ghost predicate LoopAt(F: seq<Word>, o: nat, k: nat, s: Stmt, t: Targets)
    requires s.While?
  {
    var bl, el := StmtLen(s.body), StmtLen(s.els);
    StmtAt(F, k, s.body, LoopTargets(t, s.tag, k + bl)) && BackAt(F, o, k, bl, el) && StmtAt(F, k + bl + 3, s.els, t)
  }

  lemma LoopOpen(F: seq<Word>, o: nat, s: Stmt, t: Targets) returns (cl: nat)
    requires s.While? && StmtAt(F, o, s, t)
    ensures cl == |ExprCode(s.cond)| && CondAt(F, o, ExprCode(s.cond), StmtLen(s.body) + 5) && LoopAt(F, o, o + cl + 7, s, t)
    ensures StmtLen(s) == cl + 10 + StmtLen(s.body) + StmtLen(s.els)
  {
    cl := |ExprCode(s.cond)|;
  }

  /** A loop whose condition came out false. */
  lemma {:induction false} ElseRuns(F: seq<Word>, host: Host, G: Rel, a: State, n1: nat, o: nat, k: nat, s: Stmt, t: Targets,
                                    stk: seq<Obj>, tr: Trace, fuel: nat) returns (n: nat)
    requires Sound(F, host, G)
    requires s.While? && LoopAt(F, o, k, s, t) && G(a, n1, State(k + StmtLen(s.body) + 3, stk, tr))
    ensures Follows(F, G, a, k + StmtLen(s.body) + 3 + StmtLen(s.els), t, stk, Exec(host, ByFlag, s.els, tr, fuel), fuel, n)
    decreases fuel, s, 1
  {
    n := RunsAfter(F, host, G, a, n1, k + StmtLen(s.body) + 3, s.els, s, t, stk, tr, fuel);
  }

  /** A part s of statement w that the machine has come to in n1 turns. */
  lemma {:induction false} RunsAfter(F: seq<Word>, host: Host, G: Rel, a: State, n1: nat, k: nat, s: Stmt, w: Stmt, t: Targets,
                                     stk: seq<Obj>, tr: Trace, fuel: nat) returns (n: nat)
    requires Sound(F, host, G) && StmtAt(F, k, s, t) && G(a, n1, State(k, stk, tr)) && s < w
    ensures Follows(F, G, a, k + StmtLen(s), t, stk, Exec(host, ByFlag, s, tr, fuel), fuel, n)
    decreases fuel, w, 0, 0
  {
    var n2 := StmtRuns(F, host, G, k, s, t, stk, tr, fuel);
    FollowsAfter(F, host, G, a, n1, State(k, stk, tr), k + StmtLen(s), t, stk, Exec(host, ByFlag, s, tr, fuel), fuel, n2);
    n := n1 + n2;
  }

  lemma ExecWhile(host: Host, rule: Chaining, s: Stmt, tr: Trace, fuel: nat, v: Obj, tr': Trace)
    requires s.While? && fuel > 0 && Asked(host, rule, s.cond, tr, v, tr')
    ensures Exec(host, rule, s, tr, fuel) == if v == False then Exec(host, rule, s.els, tr', fuel) else AfterBody(host, rule, s, tr', fuel)
  {
  }

  /** What a loop does once its condition has come out true. */
  function AfterBody(host: Host, rule: Chaining, s: Stmt, tr: Trace, fuel: nat): Outcome
    requires s.While? && fuel > 0
  {
    var out := Exec(host, rule, s.body, tr, fuel);
    if Again(s.tag, out) then Exec(host, rule, s, out.tr, fuel - 1)
    else if out.Leave? && Catches(s.tag, out.tag) then Normal(out.tr)
    else out
  }

  /** A loop whose condition came out true. */
  lemma {:induction false} TrueRuns(F: seq<Word>, host: Host, G: Rel, a: State, n1: nat, o: nat, k: nat, s: Stmt, t: Targets,
                                    stk: seq<Obj>, tr: Trace, fuel: nat, end: int, res: Outcome) returns (n: nat)
    requires Sound(F, host, G)
    requires fuel > 0 && s.While? && StmtAt(F, o, s, t) && LoopAt(F, o, k, s, t) && res == AfterBody(host, ByFlag, s, tr, fuel)
    requires end == o + StmtLen(s) == k + StmtLen(s.body) + 3 + StmtLen(s.els) && G(a, n1, State(k, stk, tr))
    ensures Follows(F, G, a, end, t, stk, res, fuel, n)
    decreases fuel, s, 1, 1
  {
    var n2 := BodyRuns(F, host, G, o, k, s, t, stk, tr, fuel, end, res);
    FollowsAfter(F, host, G, a, n1, State(k, stk, tr), end, t, stk, res, fuel, n2);
    n := n1 + n2;
  }

  lemma {:induction false} BodyRuns(F: seq<Word>, host: Host, G: Rel, o: nat, k: nat, s: Stmt, t: Targets,
                                    stk: seq<Obj>, tr: Trace, fuel: nat, end: int, res: Outcome) returns (n: nat)
    requires Sound(F, host, G)
    requires fuel > 0 && s.While? && StmtAt(F, o, s, t) && LoopAt(F, o, k, s, t) && res == AfterBody(host, ByFlag, s, tr, fuel)
    requires end == o + StmtLen(s) == k + StmtLen(s.body) + 3 + StmtLen(s.els)
    ensures Follows(F, G, State(k, stk, tr), end, t, stk, res, fuel, n)
    decreases fuel, s, 1, 0
  {
    var bl, el := StmtLen(s.body), StmtLen(s.els);
    var n2 := StmtRuns(F, host, G, k, s.body, LoopTargets(t, s.tag, k + bl), stk, tr, fuel);
    var out := Exec(host, ByFlag, s.body, tr, fuel);
    if Again(s.tag, out) {
      n := RoundAgain(F, host, G, o, k, bl, el, s, t, stk, tr, out, fuel, n2);
    } else {
      n := BodyLeaves(F, host, G, k, bl, el, s.tag, t, stk, tr, out, fuel, n2);
    }
  }

  /** Back to the condition, and the rest of the loop from there. */
  lemma {:induction false} RoundAgain(F: seq<Word>, host: Host, G: Rel, o: nat, k: nat, bl: nat, el: nat, s: Stmt, t: Targets,
                                      stk: seq<Obj>, tr: Trace, out: Outcome, fuel: nat, n2: nat) returns (n: nat)
    requires Sound(F, host, G)
    requires fuel > 0 && s.While? && StmtAt(F, o, s, t) && Again(s.tag, out) && BackAt(F, o, k, bl, el)
    requires Follows(F, G, State(k, stk, tr), k + bl, LoopTargets(t, s.tag, k + bl), stk, out, fuel, n2)
    ensures Follows(F, G, State(k, stk, tr), o + StmtLen(s), t, stk, Exec(host, ByFlag, s, out.tr, fuel - 1), fuel, n)
    decreases fuel, s, 0
  {
    BodyAgain(F, host, G, o, k, bl, s.tag, t, stk, tr, out, fuel, n2);
    var n3 := WhileRuns(F, host, G, o, s, t, stk, out.tr, fuel - 1);
    MoreFuel(F, host, G, State(k, stk, tr), n2 + 1, State(o, stk, out.tr), o + StmtLen(s), t, stk,
             Exec(host, ByFlag, s, out.tr, fuel - 1), fuel, n3);
    n := n2 + 1 + n3;
  }

  /** One round of a loop is at least one turn of the machine. */
  lemma MoreFuel(F: seq<Word>, host: Host, G: Rel, a: State, m: nat, b: State, end: int, t: Targets, stk: seq<Obj>,
                 out: Outcome, fuel: nat, n: nat)
    requires Sound(F, host, G)
    requires m > 0 && fuel > 0 && G(a, m, b) && Follows(F, G, b, end, t, stk, out, fuel - 1, n)
    ensures Follows(F, G, a, end, t, stk, out, fuel, m + n)
  {
    FollowsAfter(F, host, G, a, m, b, end, t, stk, out, fuel - 1, n);
  }
}
