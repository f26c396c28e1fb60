/** The code each construct compiles to, word by word, and the patching of break
    and continue. */
module CodeShape {
  import opened Machine
  import opened Language

  // ----- expressions -----

  /** Ask an object for its truth and branch on the answer (left on the stack). */
  function TestCode(dist: int, on: Obj): seq<Word> {
    [Op(PUSH, 3), Data(BOOL), Data(Null), Op(CALL, 0), Op(BEQ, dist), Data(on)]
  }

  /** The tail of every comparison, with both operands on the stack. */
  function LinkCode(op: Obj): seq<Word> {
    [Op(SWAP, 0), Op(PUSH, 4), Data(op), Data(Null), Data(NoKey), Op(DUPLICATE, -5), Op(CALL, 1), Op(CHAIN_CMP, 0)]
  }

  /** Between a comparison and the next operand of its chain: leave when False,
      otherwise ask for the value compared last. */
  function ChainCode(dist: int): seq<Word> {
    [Op(BEQ, dist), Data(False), Op(PUSH, 3), Data(GETCMP), Data(Null), Op(CALL, 0)]
  }

  function UnaryCode(op: Obj, e: seq<Word>): seq<Word> {
    e + [Op(PUSH, 3), Data(op), Data(Null), Op(CALL, 0)]
  }

  function BinaryCode(op: Obj, l: seq<Word>, r: seq<Word>): seq<Word> {
    l + [Op(PUSH, 4), Data(op), Data(Null), Data(NoKey)] + r + [Op(CALL, 1)]
  }

  function CompareCode(op: Obj, l: seq<Word>, chained: bool, r: seq<Word>): seq<Word> {
    l + (if chained then ChainCode(|r| + 14) else []) + r + LinkCode(op)
  }

  function AndOrCode(isOr: bool, l: seq<Word>, r: seq<Word>): seq<Word> {
    l + [Op(DUPLICATE, -1)] + TestCode(|r| + 4, if isOr then True else False) + [Op(POP, 2)]
      + r + [Op(BR, 2), Op(POP, 1)]
  }

  function ExprCode(e: Expr): (c: seq<Word>)
    ensures |c| > 0
  {
    match e
    case Const(obj) => [Op(PUSH, 2), Data(obj)]
    case Unary(op, e1) => UnaryCode(op, ExprCode(e1))
    case Binary(op, l, r) => BinaryCode(op, ExprCode(l), ExprCode(r))
    case Compare(op, l, r) => CompareCode(op, ExprCode(l), CmpFlag(l), ExprCode(r))
    case AndOr(isOr, l, r) => AndOrCode(isOr, ExprCode(l), ExprCode(r))
  }

  // ----- statements -----

  function IfCode(cond: seq<Word>, body: seq<Word>, rest: seq<Word>): seq<Word> {
    cond + TestCode(|body| + 4, False) + [Op(POP, 1)] + body + [Op(BR, |rest| + 2), Op(POP, 1)] + rest
  }

  function WhileCode(cond: seq<Word>, body: seq<Word>, els: seq<Word>): seq<Word> {
    cond + TestCode(|body| + 5, False) + [Op(POP, 1)]
      + body + [Op(BR, -(|cond| + 7 + |body|)), Op(BR, |els| + 2), Op(POP, 1)] + els
  }

  function JumpCode(op: Opcode, tag: string): seq<Word> {
    [Op(op, 0), Str(tag)]
  }

  /** Word p is an unresolved break or continue that a loop tagged `tag` handles. */
  predicate Handled(c: seq<Word>, p: nat, tag: string)
    requires p < |c|
  {
    c[p].Op? && (c[p].op == BREAK || c[p].op == CONTINUE) && p + 1 < |c| && c[p + 1].Str? && Catches(tag, c[p + 1].text)
  }

  /** Word p after patching: handled jumps become BR over the words left of the
      body (to the loop's back jump for continue, to the word after it for break),
      their second word becomes a one-word NOP. */
  function PatchedWord(c: seq<Word>, tag: string, p: nat): Word
    requires p < |c|
  {
    if Handled(c, p, tag) then Op(BR, |c| - p + (if c[p].op == CONTINUE then 0 else 1))
    else if p > 0 && Handled(c, p - 1, tag) then Op(NOP, 1)
    else c[p]
  }

  function Patched(c: seq<Word>, tag: string): (r: seq<Word>)
    ensures |r| == |c|
  {
    seq(|c|, p requires 0 <= p < |c| => PatchedWord(c, tag, p))
  }

  function StmtCode(s: Stmt): seq<Word>
    decreases s
  {
    match s
    case Pass => []
    case ExprStmt(e) => ExprCode(e) + [Op(POP, 1)]
    case Seq(s1, s2) => StmtCode(s1) + StmtCode(s2)
    case If(arms) => ArmsCode(arms)
    case While(tag, cond, body, els) => WhileCode(ExprCode(cond), Patched(StmtCode(body), tag), StmtCode(els))
    case Break(tag) => JumpCode(BREAK, tag)
    case Continue(tag) => JumpCode(CONTINUE, tag)
  }

  function ArmsCode(arms: Arms): seq<Word>
    decreases arms
  {
    match arms
    case Else(s) => StmtCode(s)
    case Arm(cond, body, rest) => IfCode(ExprCode(cond), StmtCode(body), ArmsCode(rest))
  }
}
