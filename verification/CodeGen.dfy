/** The parser's code generator: code blocks filled through a running index, and
    break and continue words overwritten in place. */
module CodeGen {
  import opened Machine
  import opened Language
  import opened CodeShape
  import opened StmtCorrect
  import opened JumpTargets

  /** A code block; words of a new block are zero. */
  class Code {
    var data: array<Word>
    var cmp: bool

    ghost function Words(): seq<Word>
      reads this, data
    {
      data[..]
    }

    constructor (size: nat)
      ensures fresh(data) && data.Length == size && !cmp
    {
      data := new Word[size](_ => Op(NOP, 0));
      cmp := false;
    }
  }

  // ----- filling -----

  /** Store one word and advance. */
  method Put(res: Code, k: nat, w: Word) returns (k': nat)
    requires k < res.data.Length
    modifies res.data
    ensures k' == k + 1 && res.data[..k'] == old(res.data[..k]) + [w]
  {
    res.data[k] := w;
    k' := k + 1;
  }

  /** Copy a block behind the first k words. */
  method AddCode(newcode: Code, res: Code, k: nat) returns (k': nat)
    requires newcode.data != res.data && k + newcode.data.Length <= res.data.Length
    modifies res.data
    ensures k' == k + newcode.data.Length && res.data[..k'] == old(res.data[..k]) + newcode.Words()
  {
    forall i | 0 <= i < newcode.data.Length {
      res.data[k + i] := newcode.data[i];
    }
    k' := k + newcode.data.Length;
  }

  /** Reallocate to hold `extra` more words. */
  method Grow(p: Code, extra: nat)
    modifies p
    ensures fresh(p.data) && p.data.Length == old(p.data.Length) + extra && p.cmp == old(p.cmp)
    ensures p.data[..old(p.data.Length)] == old(p.Words())
  {
    var was := p.data;
    var data := new Word[was.Length + extra](_ => Op(NOP, 0));
    forall i | 0 <= i < was.Length {
      data[i] := was[i];
    }
    p.data := data;
  }

  method AppendCode(p1: Code, p3: Code)
    requires p1 != p3
    modifies p1
    ensures fresh(p1.data) && p1.cmp == old(p1.cmp)
    ensures p1.Words() == old(p1.Words()) + old(p3.Words())
  {
    var k := p1.data.Length;
    Grow(p1, p3.data.Length);
    k := AddCode(p3, p1, k);
  }

  // ----- expressions -----

  method PushConst(obj: Obj) returns (res: Code)
    ensures fresh(res) && fresh(res.data) && !res.cmp && res.Words() == [Op(PUSH, 2), Data(obj)]
  {
    res := new Code(2);
    res.data[0], res.data[1] := Op(PUSH, 2), Data(obj);
  }

  method Unary(op: Obj, parm: Code)
    modifies parm
    ensures fresh(parm.data) && parm.cmp == old(parm.cmp)
    ensures parm.Words() == UnaryCode(op, old(parm.Words()))
  {
    var k := parm.data.Length;
    Grow(parm, 4);
    k := Put(parm, k, Op(PUSH, 3));
    k := Put(parm, k, Data(op));
    k := Put(parm, k, Data(Null));
    k := Put(parm, k, Op(CALL, 0));
  }

  /** The words between a comparison and the next operand of its chain. */
  method PutChain(res: Code, k0: nat) returns (k: nat)
    requires k0 + 6 <= res.data.Length
    modifies res.data
    ensures k == k0 + 6 && res.data[..k] == old(res.data[..k0]) + ChainCode(res.data.Length - k0)
  {
    k := Put(res, k0, Op(BEQ, res.data.Length - k0));
    k := Put(res, k, Data(False));
    k := Put(res, k, Op(PUSH, 3));
    k := Put(res, k, Data(GETCMP));
    k := Put(res, k, Data(Null));
    k := Put(res, k, Op(CALL, 0));
  }

  method PutLink(res: Code, k0: nat, op: Obj) returns (k: nat)
    requires k0 + 8 <= res.data.Length
    modifies res.data
    ensures k == k0 + 8 && res.data[..k] == old(res.data[..k0]) + LinkCode(op)
  {
    k := Put(res, k0, Op(SWAP, 0));
    k := PutCall(res, k, op);
    k := Put(res, k, Op(DUPLICATE, -5));
    k := Put(res, k, Op(CALL, 1));
    k := Put(res, k, Op(CHAIN_CMP, 0));
  }

  method PutCall(res: Code, k0: nat, op: Obj) returns (k: nat)
    requires k0 + 4 <= res.data.Length
    modifies res.data
    ensures k == k0 + 4 && res.data[..k] == old(res.data[..k0]) + [Op(PUSH, 4), Data(op), Data(Null), Data(NoKey)]
  {
    k := Put(res, k0, Op(PUSH, 4));
    k := Put(res, k, Data(op));
    k := Put(res, k, Data(Null));
    k := Put(res, k, Data(NoKey));
  }

  method Comparison(lparm: Code, op: Obj, rparm: Code, chained: bool) returns (res: Code)
    ensures fresh(res) && fresh(res.data) && res.cmp
    ensures res.Words() == CompareCode(op, lparm.Words(), chained, rparm.Words())
  {
    res := new Code(lparm.data.Length + (if chained then 6 else 0) + rparm.data.Length + 8);
    res.cmp := true;
    var k := PutOperands(lparm, rparm, res, chained);
    ghost var most := res.data[..k];
    k := PutLink(res, k, op);
    assert res.Words() == res.data[..k] == most + LinkCode(op);
  }

  /** Both operands of a comparison, with the chain code between them. */
  method PutOperands(lparm: Code, rparm: Code, res: Code, chained: bool) returns (k: nat)
    requires lparm.data != res.data && rparm.data != res.data
    requires res.data.Length == lparm.data.Length + (if chained then 6 else 0) + rparm.data.Length + 8
    modifies res.data
    ensures k + 8 == res.data.Length
    ensures res.data[..k] == lparm.Words() + (if chained then ChainCode(rparm.data.Length + 14) else []) + rparm.Words()
  {
    ghost var l := lparm.Words();
    k := AddCode(lparm, res, 0);
    assert res.data[..k] == l;
    if chained {
      k := PutChain(res, k);
    }
    k := AddCode(rparm, res, k);
  }

  /** A binary operator: a comparison extends the chain when its left operand's
      block is flagged as one. */
  method Binary(lparm: Code, op: Obj, rparm: Code, haveCmpOp: bool) returns (res: Code)
    requires lparm != rparm
    modifies lparm`cmp
    ensures fresh(res) && fresh(res.data) && res.cmp == haveCmpOp
    ensures res.Words() == if haveCmpOp then CompareCode(op, old(lparm.Words()), old(lparm.cmp), old(rparm.Words()))
                           else BinaryCode(op, old(lparm.Words()), old(rparm.Words()))
  {
    if haveCmpOp {
      var chained := lparm.cmp;
      lparm.cmp := false;
      res := Comparison(lparm, op, rparm, chained);
    } else {
      ghost var l := lparm.Words();
      res := new Code(lparm.data.Length + 4 + rparm.data.Length + 1);
      var k := 0;
      k := AddCode(lparm, res, k);
      assert res.data[..k] == l;
      k := PutCall(res, k, op);
      k := AddCode(rparm, res, k);
      k := Put(res, k, Op(CALL, 1));
      assert res.data[..k] == res.Words();
    }
  }

  method PutTest(res: Code, k0: nat, dist: int, on: Obj) returns (k: nat)
    requires k0 + 6 <= res.data.Length && dist >= 0
    modifies res.data
    ensures k == k0 + 6 && res.data[..k] == old(res.data[..k0]) + TestCode(dist, on)
  {
    k := Put(res, k0, Op(PUSH, 3));
    k := Put(res, k, Data(BOOL));
    k := Put(res, k, Data(Null));
    k := Put(res, k, Op(CALL, 0));
    k := Put(res, k, Op(BEQ, dist));
    k := Put(res, k, Data(on));
  }

  method ExprAndOrExpr(lparm: Code, rparm: Code, isOr: bool) returns (res: Code)
    ensures fresh(res) && fresh(res.data) && !res.cmp
    ensures res.Words() == AndOrCode(isOr, lparm.Words(), rparm.Words())
  {
    res := new Code(lparm.data.Length + 8 + rparm.data.Length + 2);
    var k := PutLeft(lparm, res, rparm.data.Length + 4, if isOr then True else False);
    k := AddCode(rparm, res, k);
    ghost var most := res.data[..k];
    k := Put(res, k, Op(BR, 2));
    k := Put(res, k, Op(POP, 1));
    assert res.Words() == most + [Op(BR, 2), Op(POP, 1)];
  }

  /** The left operand of and/or, its truth test on a copy, and the POP behind. */
  method PutLeft(lparm: Code, res: Code, dist: nat, on: Obj) returns (k: nat)
    requires lparm.data != res.data && lparm.data.Length + 8 <= res.data.Length
    modifies res.data
    ensures k == lparm.data.Length + 8
    ensures res.data[..k] == lparm.Words() + [Op(DUPLICATE, -1)] + TestCode(dist, on) + [Op(POP, 2)]
  {
    k := AddCode(lparm, res, 0);
    assert res.data[..k] == lparm.Words();
    k := Put(res, k, Op(DUPLICATE, -1));
    k := PutTest(res, k, dist, on);
    k := Put(res, k, Op(POP, 2));
  }

  method CompileExpr(e: Expr) returns (res: Code)
    ensures fresh(res) && fresh(res.data)
    ensures res.Words() == ExprCode(e) && res.cmp == CmpFlag(e)
    decreases e
  {
    match e
    case Const(obj) =>
      res := PushConst(obj);
    case Unary(op, e1) =>
      res := CompileExpr(e1);
      Unary(op, res);
    case Binary(op, l, r) =>
      var lc := CompileExpr(l);
      var rc := CompileExpr(r);
      res := Binary(lc, op, rc, false);
    case Compare(op, l, r) =>
      var lc := CompileExpr(l);
      var rc := CompileExpr(r);
      res := Binary(lc, op, rc, true);
    case AndOr(isOr, l, r) =>
      var lc := CompileExpr(l);
      var rc := CompileExpr(r);
      res := ExprAndOrExpr(lc, rc, isOr);
  }

  // ----- break and continue -----

  method JumpStmt(op: Opcode, tag: string) returns (res: Code)
    ensures fresh(res) && fresh(res.data) && res.Words() == JumpCode(op, tag)
  {
    res := new Code(2);
    res.data[0], res.data[1] := Op(op, 0), Str(tag);
  }

  /** Nothing but the jump and its label changes under the walk from p to the next
      instruction. */
  lemma PatchedUpTo(c: seq<Word>, tag: string, p: nat, i: nat)
    requires Tiled(c, 0) && Paired(c) && p < |c| && c[p].Op? && p <= i < |c|
    requires i < p + Width(c[p])
    ensures Patched(c, tag)[i] == if !Handled(c, p, tag) then c[i]
                                  else if i == p then Op(BR, |c| - p + (if c[p].op == CONTINUE then 0 else 1)) else Op(NOP, 1)
  {
    assert GoodAt(c, p, 0);
    PatchedKeeps(c, tag, i);
    if i > p + 1 { assert !c[i - 1].Op?; }
  }

  /** Walk the body instruction by instruction and overwrite the jumps this loop
      handles. */
  method PatchBreakContinues(tag: string, body: Code)
    requires Tiled(body.Words(), 0) && Paired(body.Words())
    modifies body.data
    ensures body.Words() == Patched(old(body.Words()), tag)
  {
    ghost var c := body.Words();
    var p := 0;
    while p < body.data.Length - 1
      invariant 0 <= p <= |c| == body.data.Length && Entry(c, p)
      invariant forall i :: 0 <= i < p ==> body.data[i] == Patched(c, tag)[i]
      invariant forall i :: p <= i < |c| ==> body.data[i] == c[i]
    {
      assert GoodAt(c, p, 0);
      var word, operand := body.data[p], body.data[p + 1];
      if (word.op == BREAK || word.op == CONTINUE) && Catches(tag, operand.text) {
        body.data[p] := Op(BR, body.data.Length - p + (if word.op == CONTINUE then 0 else 1));
        body.data[p + 1] := Op(NOP, 1);
      }
      forall i | p <= i < p + Width(word)
        ensures body.data[i] == Patched(c, tag)[i]
      {
        PatchedUpTo(c, tag, p, i);
      }
      p := p + Width(word);
    }
    if p < |c| {
      assert GoodAt(c, p, 0);
      PatchedUpTo(c, tag, p, p);
    }
    assert body.Words() == Patched(c, tag);
  }

  // ----- if and while -----

  /** A list of blocks, as words. */
  ghost function AllWords(cs: seq<Code>): (r: seq<seq<Word>>)
    reads cs, set c | c in cs :: c.data
    ensures |r| == |cs| && forall i :: 0 <= i < |cs| ==> r[i] == cs[i].Words()
  {
    if cs == [] then [] else [cs[0].Words()] + AllWords(cs[1..])
  }

  /** The code of arms given as lists. */
  function ListCode(conds: seq<seq<Word>>, bodies: seq<seq<Word>>, els: seq<Word>): seq<Word>
    requires |conds| == |bodies|
  {
    if conds == [] then els else IfCode(conds[0], bodies[0], ListCode(conds[1..], bodies[1..], els))
  }

  /** The truth test of a condition and the POP behind it. */
  method AddSkipCode1(body: Code, res: Code, k0: nat) returns (k: nat)
    requires body.data != res.data && k0 + 7 <= res.data.Length
    modifies res.data
    ensures k == k0 + 7
    ensures res.data[..k] == old(res.data[..k0]) + TestCode(body.data.Length + 4, False) + [Op(POP, 1)]
  {
    k := PutTest(res, k0, body.data.Length + 4, False);
    k := Put(res, k, Op(POP, 1));
  }

  /** The jump over the remaining arms and the POP a failed condition lands on. */
  method AddSkipCode2(dist: int, res: Code, k0: nat) returns (k: nat)
    requires k0 + 2 <= res.data.Length
    modifies res.data
    ensures k == k0 + 2 && res.data[..k] == old(res.data[..k0]) + [Op(BR, dist), Op(POP, 1)]
  {
    k := Put(res, k0, Op(BR, dist));
    k := Put(res, k, Op(POP, 1));
  }

  /** One arm, in front of the code `rest` of those behind it. */
  method AddArm(cond: Code, body: Code, res: Code, k0: nat, ghost rest: seq<Word>) returns (k: nat)
    requires cond.data != res.data && body.data != res.data
    requires k0 + cond.data.Length + body.data.Length + 9 + |rest| == res.data.Length
    modifies res.data
    ensures k + |rest| == res.data.Length
    ensures res.data[..k] + rest == old(res.data[..k0]) + IfCode(cond.Words(), body.Words(), rest)
  {
    ghost var head, c, b := res.data[..k0], cond.Words(), body.Words();
    k := AddCode(cond, res, k0);
    k := AddSkipCode1(body, res, k);
    k := AddCode(body, res, k);
    k := AddSkipCode2(res.data.Length - k, res, k);
    assert res.data[..k] == head + c + (TestCode(|b| + 4, False) + [Op(POP, 1)]) + b + [Op(BR, |rest| + 2), Op(POP, 1)];
  }

  lemma ListStep(C: seq<seq<Word>>, B: seq<seq<Word>>, e: seq<Word>, i: nat)
    requires i < |C| == |B|
    ensures ListCode(C[i..], B[i..], e) == IfCode(C[i], B[i], ListCode(C[i + 1..], B[i + 1..], e))
  {
    assert C[i..][1..] == C[i + 1..] && B[i..][1..] == B[i + 1..];
  }

  method ArmsLength(conds: seq<Code>, bodies: seq<Code>, els: Code) returns (len: nat)
    requires |conds| == |bodies|
    ensures len == |ListCode(AllWords(conds), AllWords(bodies), els.Words())|
  {
    ghost var C, B, e := AllWords(conds), AllWords(bodies), els.Words();
    len := 0;
    var i := 0;
    assert C[0..] == C && B[0..] == B;
    while i < |conds|
      invariant i <= |conds|
      invariant len + |ListCode(C[i..], B[i..], e)| == |ListCode(C, B, e)|
    {
      ListStep(C, B, e, i);
      len := len + conds[i].data.Length + 7 + bodies[i].data.Length + 2;
      i := i + 1;
    }
    len := len + els.data.Length;
  }

  /** The arms in order, each in front of the code of those behind it. */
  method AddArms(conds: seq<Code>, bodies: seq<Code>, res: Code, ghost e: seq<Word>) returns (k: nat)
    requires |conds| == |bodies| && (forall c :: c in conds || c in bodies ==> c.data != res.data)
    requires res.data.Length == |ListCode(AllWords(conds), AllWords(bodies), e)|
    modifies res.data
    ensures k + |e| == res.data.Length
    ensures res.data[..k] + e == ListCode(old(AllWords(conds)), old(AllWords(bodies)), e)
  {
    ghost var C, B := AllWords(conds), AllWords(bodies);
    k := 0;
    var i := 0;
    assert C[0..] == C && B[0..] == B;
    while i < |conds|
      invariant i <= |conds| && res.data.Length == k + |ListCode(C[i..], B[i..], e)|
      invariant res.data[..k] + ListCode(C[i..], B[i..], e) == ListCode(C, B, e)
    {
      ListStep(C, B, e, i);
      ghost var rest := ListCode(C[i + 1..], B[i + 1..], e);
      ghost var head := res.data[..k];
      k := AddArm(conds[i], bodies[i], res, k, rest);
      assert res.data[..k] + rest == head + IfCode(C[i], B[i], rest);
      i := i + 1;
    }
  }

  /** All arms and the else block into one buffer; each arm ends with a jump to the
      end of the whole. */
  method IfExprBodyElifElse(conds: seq<Code>, bodies: seq<Code>, els: Code) returns (res: Code)
    requires |conds| == |bodies| > 0
    ensures fresh(res) && fresh(res.data)
    ensures res.Words() == ListCode(old(AllWords(conds)), old(AllWords(bodies)), old(els.Words()))
  {
    ghost var C, B, e := AllWords(conds), AllWords(bodies), els.Words();
    var len := ArmsLength(conds, bodies, els);
    res := new Code(len);
    assert AllWords(conds) == C && AllWords(bodies) == B;
    var k := AddArms(conds, bodies, res, e);
    assert res.data[..k] + e == ListCode(C, B, e);
    if els.data.Length > 0 {
      k := AddCode(els, res, k);
    }
    assert res.Words() == ListCode(C, B, e);
  }

  method PutLoopEnd(res: Code, k0: nat, endLoc: int) returns (k: nat)
    requires k0 + 3 <= res.data.Length
    modifies res.data
    ensures k == k0 + 3
    ensures res.data[..k] == old(res.data[..k0]) + [Op(BR, -(k0 as int)), Op(BR, endLoc - (k0 + 1)), Op(POP, 1)]
  {
    k := Put(res, k0, Op(BR, 0 - k0));
    k := Put(res, k, Op(BR, endLoc - k));
    k := Put(res, k, Op(POP, 1));
  }

  /** Whatever the label, the jumps of the body are resolved; then the else block is
      read, so that without one (NULL) nothing comes of the loop. */
  method WhileExprBodyElse(tag: string, expr: Code, body: Code, els: Code?) returns (res: Code?)
    requires body.data != expr.data && (els != null ==> body.data != els.data)
    requires Tiled(body.Words(), 0) && Paired(body.Words())
    modifies body.data
    ensures body.Words() == Patched(old(body.Words()), tag)
    ensures res == null <==> els == null
    ensures res != null ==>
              && fresh(res) && fresh(res.data)
              && res.Words() == WhileCode(expr.Words(), Patched(old(body.Words()), tag), els.Words())
  {
    PatchBreakContinues(tag, body);
    if els == null {
      return null;
    }
    res := LoopBlock(expr, body, els);
  }

  /** The head of a loop: condition, truth test, POP. */
  method PutCondition(expr: Code, res: Code, dist: nat) returns (k: nat)
    requires expr.data != res.data && expr.data.Length + 7 <= res.data.Length
    modifies res.data
    ensures k == expr.data.Length + 7
    ensures res.data[..k] == expr.Words() + TestCode(dist, False) + [Op(POP, 1)]
  {
    k := AddCode(expr, res, 0);
    assert res.data[..k] == expr.Words();
    k := PutTest(res, k, dist, False);
    k := Put(res, k, Op(POP, 1));
  }

  lemma LoopWords(c: seq<Word>, b: seq<Word>, e: seq<Word>, most: seq<Word>, mid: seq<Word>)
    requires most == c + TestCode(|b| + 5, False) + [Op(POP, 1)] + b
    requires mid == [Op(BR, -(|c| + 7 + |b|)), Op(BR, |e| + 2), Op(POP, 1)]
    ensures most + mid + e == WhileCode(c, b, e)
  {
  }

  method LoopBlock(expr: Code, body: Code, els: Code) returns (res: Code)
    ensures fresh(res) && fresh(res.data)
    ensures res.Words() == WhileCode(expr.Words(), body.Words(), els.Words())
  {
    ghost var c, b, e := expr.Words(), body.Words(), els.Words();
    var bodyLoc := expr.data.Length + 7;
    var elsLoc := bodyLoc + body.data.Length + 2;
    var endLoc := elsLoc + 1 + els.data.Length;
    res := new Code(endLoc);
    var k := PutCondition(expr, res, elsLoc - (expr.data.Length + 4));
    k := AddCode(body, res, k);
    ghost var most := res.data[..k];
    k := PutLoopEnd(res, k, endLoc);
    ghost var mid := [Op(BR, -(|c| + 7 + |b|)), Op(BR, |e| + 2), Op(POP, 1)];
    assert res.data[..k] == most + mid;
    LoopWords(c, b, e, most, mid);
    if els.data.Length > 0 {
      k := AddCode(els, res, k);
    }
    assert res.Words() == res.data[..k] == most + mid + e;
  }

  // ----- the whole generator -----

  /** What the parser makes of a statement: its code, or null where a routine reads
      a block that is not there. The grammar gives a labelled loop no else block. */
  method CompileStmt(s: Stmt) returns (res: Code?)
    ensures res == null <==> !Unlabelled(s)
    ensures res != null ==> fresh(res) && fresh(res.data) && res.Words() == StmtCode(s)
    decreases s
  {
    match s
    case Pass =>
      res := new Code(0);
    case ExprStmt(e) =>
      res := CompileExprStmt(e);
    case Seq(s1, s2) =>
      res := CompileStmt(s1);
      var next := CompileStmt(s2);
      if res == null || next == null {
        return null;
      }
      AppendCode(res, next);
    case If(arms) =>
      res := CompileArms(arms);
    case While(tag, cond, body, els) =>
      res := CompileWhile(tag, cond, body, els);
    case Break(tag) =>
      res := JumpStmt(BREAK, tag);
    case Continue(tag) =>
      res := JumpStmt(CONTINUE, tag);
  }

  method CompileExprStmt(e: Expr) returns (res: Code)
    ensures fresh(res) && fresh(res.data) && res.Words() == ExprCode(e) + [Op(POP, 1)]
  {
    res := CompileExpr(e);
    var pop := new Code(1);
    pop.data[0] := Op(POP, 1);
    AppendCode(res, pop);
  }

  /** The two rules of the grammar: an else block for loops without a label, NULL for
      those with one. */
  method CompileWhile(tag: string, cond: Expr, body: Stmt, els: Stmt) returns (res: Code?)
    ensures res == null <==> !Unlabelled(While(tag, cond, body, els))
    ensures res != null ==> fresh(res) && fresh(res.data) && res.Words() == StmtCode(While(tag, cond, body, els))
    decreases While(tag, cond, body, els), 0
  {
    var expr := CompileExpr(cond);
    var bodyCode := CompileStmt(body);
    var elsCode: Code? := null;
    if tag == NO_LABEL {
      elsCode := CompileStmt(els);
    }
    if bodyCode == null {
      return null;
    }
    StmtTiled(body);
    StmtPaired(body);
    res := WhileExprBodyElse(tag, expr, bodyCode, elsCode);
  }

  method CompileArms(arms: Arms) returns (res: Code?)
    ensures res == null <==> !UnlabelledArms(arms)
    ensures res != null ==> fresh(res) && fresh(res.data) && res.Words() == ArmsCode(arms)
    decreases arms, 1
  {
    var conds, bodies, els := CollectArms(arms);
    if els == null || |conds| == 0 {
      res := els;
    } else {
      res := IfExprBodyElifElse(conds, bodies, els);
    }
  }

  /** The parser's lists of arms. */
  method CollectArms(arms: Arms) returns (conds: seq<Code>, bodies: seq<Code>, els: Code?)
    ensures |conds| == |bodies| && (els == null <==> !UnlabelledArms(arms))
    ensures els != null ==> fresh(els) && fresh(els.data)
    ensures forall c :: c in conds || c in bodies ==> fresh(c) && fresh(c.data)
    ensures els != null ==> ListCode(AllWords(conds), AllWords(bodies), els.Words()) == ArmsCode(arms)
    decreases arms, 0
  {
    match arms
    case Else(s) =>
      els := CompileStmt(s);
      conds, bodies := [], [];
    case Arm(cond, body, rest) =>
      var c := CompileExpr(cond);
      var b := CompileStmt(body);
      conds, bodies, els := CollectArms(rest);
      if b == null || els == null {
        return [], [], null;
      }
      ghost var C, B := AllWords(conds), AllWords(bodies);
      conds, bodies := [c] + conds, [b] + bodies;
      assert conds[1..] + [] == conds[1..] && AllWords(conds)[1..] == C && AllWords(bodies)[1..] == B;
  }

  /** The smallest labelled loop: outer: while True: break outer. */
  method LabelledLoop() returns (res: Code?)
    ensures res == null
  {
    res := CompileStmt(While("outer", Const(True), Break("outer"), Pass));
  }
}
