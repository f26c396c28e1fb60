/** Instructions tile the code, and every jump lands on the first word of an
    instruction or just past the end. */
module JumpTargets {
  import opened Machine
  import opened Language
  import opened CodeShape
  import opened ExprCorrect
  import opened StmtCorrect

  /** Word i, when it is an opcode, is followed by exactly its operand words and,
      when it branches, branches to an opcode word or at most `slack` words past
      the end. */
  ghost predicate GoodAt(c: seq<Word>, i: nat, slack: nat)
    requires i < |c|
  {
    c[i].Op? ==>
      && 1 <= Width(c[i]) && i + Width(c[i]) <= |c|
      && (forall j :: i < j < i + Width(c[i]) ==> !c[j].Op?)
      && (i + Width(c[i]) < |c| ==> c[i + Width(c[i])].Op?)
      && (c[i].op == BR || c[i].op == BEQ ==>
            0 <= i + c[i].param <= |c| + slack && (i + c[i].param < |c| ==> c[i + c[i].param].Op?))
  }

  ghost predicate Tiled(c: seq<Word>, slack: nat) {
    (|c| > 0 ==> c[0].Op?) && forall i {:trigger GoodAt(c, i, slack)} :: 0 <= i < |c| ==> GoodAt(c, i, slack)
  }

  /** Offset p of the code is where an instruction starts, or its end. */
  ghost predicate Entry(c: seq<Word>, p: int) {
    p == |c| || (0 <= p < |c| && c[p].Op?)
  }

  /** A block keeps its tiling inside a larger one when what follows it starts
      instructions wherever its jumps lead. */
  lemma SubBlock(F: seq<Word>, k: nat, b: seq<Word>, slack: nat)
    requires At(F, k, b) && Tiled(b, slack)
    requires slack <= 1 && Entry(F, k + |b|) && (slack == 1 ==> Entry(F, k + |b| + 1))
    ensures forall i {:trigger GoodAt(F, i, 0)} :: k <= i < k + |b| ==> GoodAt(F, i, 0)
  {
    forall i | k <= i < k + |b|
      ensures GoodAt(F, i, 0)
    {
      var j := i - k;
      assert F[k + j] == b[j] && GoodAt(b, j, slack);
      if b[j].Op? {
        var w := Width(b[j]);
        forall m | i < m < i + w
          ensures !F[m].Op?
        {
          assert F[k + (m - k)] == b[m - k];
        }
        if j + w < |b| { assert F[k + (j + w)] == b[j + w]; }
        if b[j].op == BR || b[j].op == BEQ {
          var q := j + b[j].param;
          if q < |b| { assert F[k + q] == b[q]; }
        }
      }
    }
  }

  lemma SelfAt(c: seq<Word>)
    ensures At(c, 0, c)
  {
  }

  /** Words k to k + n - 1 are good. */
  ghost predicate GoodRange(F: seq<Word>, k: int, n: int) {
    0 <= k && k + n <= |F| && forall i {:trigger GoodAt(F, i, 0)} :: k <= i < k + n ==> GoodAt(F, i, 0)
  }

  lemma SubBlockGood(F: seq<Word>, k: nat, b: seq<Word>)
    requires At(F, k, b) && Tiled(b, 0) && Entry(F, k + |b|)
    ensures GoodRange(F, k, |b|)
  {
    SubBlock(F, k, b, 0);
  }

  lemma OneGood(F: seq<Word>, k: nat, w: Word)
    requires At(F, k, [w]) && w.Op? && Width(w) == 1 && w.op != BEQ && Entry(F, k + 1)
    requires w.op == BR ==> Entry(F, k + w.param)
    ensures GoodRange(F, k, 1) && Entry(F, k)
  {
    AtWord(F, k, [w], 0);
  }

  lemma PushGood(F: seq<Word>, k: nat, ws: seq<Word>)
    requires At(F, k, [Op(PUSH, |ws| + 1)] + ws) && Entry(F, k + 1 + |ws|)
    requires forall i :: 0 <= i < |ws| ==> !ws[i].Op?
    ensures GoodRange(F, k, |ws| + 1) && Entry(F, k)
  {
    var c := [Op(PUSH, |ws| + 1)] + ws;
    AtWord(F, k, c, 0);
    forall j | k < j < k + 1 + |ws|
      ensures !F[j].Op?
    {
      AtWord(F, k, c, j - k);
      assert c[j - k] == ws[j - k - 1];
    }
  }

  lemma BeqGood(F: seq<Word>, k: nat, dist: int, on: Obj)
    requires At(F, k, [Op(BEQ, dist), Data(on)]) && Entry(F, k + 2) && Entry(F, k + dist)
    ensures GoodRange(F, k, 2) && Entry(F, k)
  {
    AtWord(F, k, [Op(BEQ, dist), Data(on)], 0);
    AtWord(F, k, [Op(BEQ, dist), Data(on)], 1);
  }

  lemma Joined(F: seq<Word>, k: int, m: nat, n: nat)
    requires GoodRange(F, k, m) && GoodRange(F, k + m, n)
    ensures GoodRange(F, k, m + n)
  {
  }

  lemma TestGood(F: seq<Word>, k: nat, dist: nat, on: Obj)
    requires At(F, k, TestCode(dist, on)) && Entry(F, k + 6) && Entry(F, k + 4 + dist)
    ensures GoodRange(F, k, 6) && Entry(F, k)
  {
    var ws := [Data(BOOL), Data(Null)];
    assert TestCode(dist, on) == ([Op(PUSH, 3)] + ws) + ([Op(CALL, 0)] + [Op(BEQ, dist), Data(on)]);
    AtSplit(F, k, [Op(PUSH, 3)] + ws, [Op(CALL, 0)] + [Op(BEQ, dist), Data(on)]);
    AtSplit(F, k + 3, [Op(CALL, 0)], [Op(BEQ, dist), Data(on)]);
    BeqGood(F, k + 4, dist, on);
    OneGood(F, k + 3, Op(CALL, 0));
    PushGood(F, k, ws);
    Joined(F, k, 3, 1);
    Joined(F, k, 4, 2);
  }

  lemma LinkGood(F: seq<Word>, k: nat, op: Obj)
    requires At(F, k, LinkCode(op)) && Entry(F, k + 8)
    ensures GoodRange(F, k, 8) && Entry(F, k)
  {
    var ws := [Data(op), Data(Null), Data(NoKey)];
    var tail := [Op(DUPLICATE, -5)] + ([Op(CALL, 1)] + [Op(CHAIN_CMP, 0)]);
    assert LinkCode(op) == [Op(SWAP, 0)] + (([Op(PUSH, 4)] + ws) + tail);
    AtSplit(F, k, [Op(SWAP, 0)], ([Op(PUSH, 4)] + ws) + tail);
    AtSplit(F, k + 1, [Op(PUSH, 4)] + ws, tail);
    AtSplit(F, k + 5, [Op(DUPLICATE, -5)], [Op(CALL, 1)] + [Op(CHAIN_CMP, 0)]);
    AtSplit(F, k + 6, [Op(CALL, 1)], [Op(CHAIN_CMP, 0)]);
    OneGood(F, k + 7, Op(CHAIN_CMP, 0));
    OneGood(F, k + 6, Op(CALL, 1));
    OneGood(F, k + 5, Op(DUPLICATE, -5));
    PushGood(F, k + 1, ws);
    OneGood(F, k, Op(SWAP, 0));
    Joined(F, k, 1, 4);
    Joined(F, k, 5, 1);
    Joined(F, k, 6, 1);
    Joined(F, k, 7, 1);
  }

  lemma ChainGood(F: seq<Word>, k: nat, dist: int)
    requires At(F, k, ChainCode(dist)) && Entry(F, k + 6) && Entry(F, k + dist)
    ensures GoodRange(F, k, 6) && Entry(F, k)
  {
    var ws := [Data(GETCMP), Data(Null)];
    var tail := ([Op(PUSH, 3)] + ws) + [Op(CALL, 0)];
    assert ChainCode(dist) == [Op(BEQ, dist), Data(False)] + tail;
    AtSplit(F, k, [Op(BEQ, dist), Data(False)], tail);
    AtSplit(F, k + 2, [Op(PUSH, 3)] + ws, [Op(CALL, 0)]);
    OneGood(F, k + 5, Op(CALL, 0));
    PushGood(F, k + 2, ws);
    BeqGood(F, k, dist, False);
    Joined(F, k, 2, 3);
    Joined(F, k, 5, 1);
  }

  lemma EntryOf(F: seq<Word>, k: nat, b: seq<Word>)
    requires At(F, k, b) && Tiled(b, 0) && Entry(F, k + |b|)
    ensures Entry(F, k)
  {
    if |b| > 0 { AtWord(F, k, b, 0); }
  }

  lemma AllGood(F: seq<Word>)
    requires GoodRange(F, 0, |F|) && Entry(F, 0)
    ensures Tiled(F, 0)
  {
  }

  lemma UnaryTiled(op: Obj, e: seq<Word>)
    requires Tiled(e, 0)
    ensures Tiled(UnaryCode(op, e), 0)
  {
    var F, ws := UnaryCode(op, e), [Data(op), Data(Null)];
    UnaryPieces(F, op, e, ws);
    OneGood(F, |e| + 3, Op(CALL, 0));
    PushGood(F, |e|, ws);
    SubBlockGood(F, 0, e);
    EntryOf(F, 0, e);
    Joined(F, 0, |e|, 3);
    Joined(F, 0, |e| + 3, 1);
    AllGood(F);
  }

  lemma UnaryPieces(F: seq<Word>, op: Obj, e: seq<Word>, ws: seq<Word>)
    requires F == UnaryCode(op, e) && ws == [Data(op), Data(Null)]
    ensures At(F, 0, e) && At(F, |e|, [Op(PUSH, 3)] + ws) && At(F, |e| + 3, [Op(CALL, 0)]) && |F| == |e| + 4
  {
    assert F == e + (([Op(PUSH, 3)] + ws) + [Op(CALL, 0)]);
    SelfAt(F);
    AtSplit(F, 0, e, ([Op(PUSH, 3)] + ws) + [Op(CALL, 0)]);
    AtSplit(F, |e|, [Op(PUSH, 3)] + ws, [Op(CALL, 0)]);
  }

  lemma BinaryTiled(op: Obj, l: seq<Word>, r: seq<Word>)
    requires Tiled(l, 0) && Tiled(r, 0)
    ensures Tiled(BinaryCode(op, l, r), 0)
  {
    var F := BinaryCode(op, l, r);
    SelfAt(F);
    BinarySplit(F, 0, op, l, r);
    BinaryTail(F, |l| + 4, r);
    BinaryHead(F, op, l);
    Joined(F, 0, |l| + 4, |r| + 1);
    AllGood(F);
  }

  lemma BinaryTail(F: seq<Word>, k: nat, r: seq<Word>)
    requires Tiled(r, 0) && At(F, k, r) && At(F, k + |r|, [Op(CALL, 1)]) && k + |r| + 1 == |F|
    ensures GoodRange(F, k, |r| + 1) && Entry(F, k)
  {
    OneGood(F, k + |r|, Op(CALL, 1));
    SubBlockGood(F, k, r);
    EntryOf(F, k, r);
    Joined(F, k, |r|, 1);
  }

  lemma BinaryHead(F: seq<Word>, op: Obj, l: seq<Word>)
    requires Tiled(l, 0) && At(F, 0, l) && At(F, |l|, [Op(PUSH, 4)] + [Data(op), Data(Null), Data(NoKey)])
    requires Entry(F, |l| + 4)
    ensures GoodRange(F, 0, |l| + 4) && Entry(F, 0)
  {
    PushGood(F, |l|, [Data(op), Data(Null), Data(NoKey)]);
    SubBlockGood(F, 0, l);
    EntryOf(F, 0, l);
    Joined(F, 0, |l|, 4);
  }

  lemma CompareTiled(op: Obj, l: seq<Word>, chained: bool, r: seq<Word>)
    requires Tiled(l, 0) && Tiled(r, 0)
    ensures Tiled(CompareCode(op, l, chained, r), 0)
  {
    var F := CompareCode(op, l, chained, r);
    var m := if chained then ChainCode(|r| + 14) else [];
    SelfAt(F);
    CompareSplit(F, 0, op, l, m, r);
    var k := |l| + |m|;
    CompareTail(F, k, op, r);
    CompareHead(F, l, chained, |r| + 14, k);
    Joined(F, 0, k, |r| + 8);
    AllGood(F);
  }

  /** The right operand and the link. */
  lemma CompareTail(F: seq<Word>, k: nat, op: Obj, r: seq<Word>)
    requires Tiled(r, 0) && At(F, k, r) && At(F, k + |r|, LinkCode(op)) && k + |r| + 8 == |F|
    ensures GoodRange(F, k, |r| + 8) && Entry(F, k)
  {
    LinkGood(F, k + |r|, op);
    SubBlockGood(F, k, r);
    EntryOf(F, k, r);
    Joined(F, k, |r|, 8);
  }

  /** The left operand, and the chain code behind it when there is any. */
  lemma CompareHead(F: seq<Word>, l: seq<Word>, chained: bool, dist: nat, k: nat)
    requires Tiled(l, 0) && At(F, 0, l) && k == |l| + (if chained then 6 else 0) && Entry(F, k)
    requires chained ==> At(F, |l|, ChainCode(dist)) && |l| + dist == |F|
    ensures GoodRange(F, 0, k) && Entry(F, 0)
  {
    if chained { ChainGood(F, |l|, dist); }
    SubBlockGood(F, 0, l);
    EntryOf(F, 0, l);
    if chained { Joined(F, 0, |l|, 6); }
  }

  lemma AndOrTiled(isOr: bool, l: seq<Word>, r: seq<Word>)
    requires Tiled(l, 0) && Tiled(r, 0)
    ensures Tiled(AndOrCode(isOr, l, r), 0)
  {
    var F, on := AndOrCode(isOr, l, r), if isOr then True else False;
    SelfAt(F);
    AndOrSplit(F, 0, isOr, l, r);
    var k := |l| + 8;
    AndOrTail(F, k, r);
    AndOrHead(F, l, |r| + 4, on);
    Joined(F, 0, k, |r| + 2);
    AllGood(F);
  }

  /** The right operand, the jump over the last POP, and that POP. */
  lemma AndOrTail(F: seq<Word>, k: nat, r: seq<Word>)
    requires Tiled(r, 0) && At(F, k, r) && At(F, k + |r|, [Op(BR, 2)]) && At(F, k + |r| + 1, [Op(POP, 1)])
    requires k + |r| + 2 == |F|
    ensures GoodRange(F, k, |r| + 2) && Entry(F, k) && Entry(F, k + |r| + 1)
  {
    OneGood(F, k + |r| + 1, Op(POP, 1));
    OneGood(F, k + |r|, Op(BR, 2));
    SubBlockGood(F, k, r);
    EntryOf(F, k, r);
    Joined(F, k, |r|, 1);
    Joined(F, k, |r| + 1, 1);
  }

  /** The left operand, its truth test on a copy, and the POP behind. */
  lemma AndOrHead(F: seq<Word>, l: seq<Word>, dist: nat, on: Obj)
    requires Tiled(l, 0) && At(F, 0, l) && At(F, |l|, [Op(DUPLICATE, -1)]) && At(F, |l| + 1, TestCode(dist, on))
    requires At(F, |l| + 7, [Op(POP, 2)]) && Entry(F, |l| + 8) && Entry(F, |l| + 5 + dist)
    ensures GoodRange(F, 0, |l| + 8) && Entry(F, 0)
  {
    OneGood(F, |l| + 7, Op(POP, 2));
    TestGood(F, |l| + 1, dist, on);
    OneGood(F, |l|, Op(DUPLICATE, -1));
    SubBlockGood(F, 0, l);
    EntryOf(F, 0, l);
    Joined(F, 0, |l|, 1);
    Joined(F, 0, |l| + 1, 6);
    Joined(F, 0, |l| + 7, 1);
  }

  lemma {:induction false} ExprTiled(e: Expr)
    ensures Tiled(ExprCode(e), 0)
    decreases e
  {
    match e
    case Const(_) =>
    case Unary(op, e1) =>
      ExprTiled(e1);
      UnaryTiled(op, ExprCode(e1));
    case Binary(op, l, r) =>
      ExprTiled(l);
      ExprTiled(r);
      BinaryTiled(op, ExprCode(l), ExprCode(r));
    case Compare(op, l, r) =>
      ExprTiled(l);
      ExprTiled(r);
      CompareTiled(op, ExprCode(l), CmpFlag(l), ExprCode(r));
    case AndOr(isOr, l, r) =>
      ExprTiled(l);
      ExprTiled(r);
      AndOrTiled(isOr, ExprCode(l), ExprCode(r));
  }

  /** Patching keeps opcode words opcode words and leaves operand words alone. */
  lemma PatchedKeeps(c: seq<Word>, tag: string, j: nat)
    requires j < |c| && Paired(c)
    ensures Patched(c, tag)[j] == PatchedWord(c, tag, j)
    ensures c[j].Op? ==> Patched(c, tag)[j].Op?
    ensures c[j].Op? && !Handled(c, j, tag) ==> Patched(c, tag)[j] == c[j]
    ensures c[j].Data? ==> Patched(c, tag)[j] == c[j]
    ensures c[j].Str? && !Handled(c, j - 1, tag) ==> Patched(c, tag)[j] == c[j]
  {
  }

  lemma PatchedOther(c: seq<Word>, tag: string, i: nat)
    requires i < |c| && Tiled(c, 0) && Paired(c) && c[i].Op? && !Handled(c, i, tag)
    ensures GoodAt(Patched(c, tag), i, 1)
  {
    var p := Patched(c, tag);
    PatchedKeeps(c, tag, i);
    assert GoodAt(c, i, 0);
    var w := Width(c[i]);
    forall j | i < j < i + w
      ensures !p[j].Op?
    {
      PatchedKeeps(c, tag, j);
      if j - 1 > i { assert !c[j - 1].Op?; }
    }
    if i + w < |c| { PatchedKeeps(c, tag, i + w); }
    if c[i].op == BR || c[i].op == BEQ {
      var q := i + c[i].param;
      if q < |c| { PatchedKeeps(c, tag, q); }
    }
  }

  lemma PatchedJump(c: seq<Word>, tag: string, i: nat)
    requires i < |c| && Tiled(c, 0) && Paired(c) && Handled(c, i, tag)
    ensures GoodAt(Patched(c, tag), i, 1) && GoodAt(Patched(c, tag), i + 1, 1)
  {
    PatchedKeeps(c, tag, i);
    PatchedKeeps(c, tag, i + 1);
    assert GoodAt(c, i, 0);
    if i + 2 < |c| { PatchedKeeps(c, tag, i + 2); }
  }

  /** Patched jumps lead to the end of the block or one word past it; a two-word
      break becomes two one-word instructions. */
  lemma PatchedTiled(c: seq<Word>, tag: string)
    requires Tiled(c, 0) && Paired(c)
    ensures Tiled(Patched(c, tag), 1)
  {
    var p := Patched(c, tag);
    forall i | 0 <= i < |p|
      ensures GoodAt(p, i, 1)
    {
      PatchedKeeps(c, tag, i);
      if Handled(c, i, tag) {
        PatchedJump(c, tag, i);
      } else if c[i].Op? {
        PatchedOther(c, tag, i);
      } else if c[i].Str? && Handled(c, i - 1, tag) {
        PatchedJump(c, tag, i - 1);
      }
    }
    if |c| > 0 { PatchedKeeps(c, tag, 0); }
  }

  lemma IfPieces(F: seq<Word>, c: seq<Word>, b: seq<Word>, r: seq<Word>)
    requires F == IfCode(c, b, r) && NoJumps(c) && Paired(b) && Paired(r)
    ensures CondAt(F, 0, c, |b| + 4) && SkipAt(F, |c| + 7, |b|, |r|) && At(F, |c| + 7, b) && At(F, |c| + 9 + |b|, r)
    ensures |F| == |c| + 9 + |b| + |r|
  {
    PlacedSelf(F);
    IfSplit(F, 0, c, b, r, map[]);
    PlacedNone(F, |c| + 7, b);
    PlacedNone(F, |c| + 9 + |b|, r);
  }

  lemma IfTiled(c: seq<Word>, b: seq<Word>, r: seq<Word>)
    requires Tiled(c, 0) && Tiled(b, 0) && Tiled(r, 0) && NoJumps(c) && Paired(b) && Paired(r)
    ensures Tiled(IfCode(c, b, r), 0)
  {
    var F := IfCode(c, b, r);
    IfPieces(F, c, b, r);
    SubBlockGood(F, |c| + 9 + |b|, r);
    EntryOf(F, |c| + 9 + |b|, r);
    OneGood(F, |c| + 8 + |b|, Op(POP, 1));
    OneGood(F, |c| + 7 + |b|, Op(BR, |r| + 2));
    IfBodyTiled(F, c, b);
    Joined(F, 0, |c| + 7 + |b|, 1);
    Joined(F, 0, |c| + 8 + |b|, 1);
    Joined(F, 0, |c| + 9 + |b|, |r|);
    AllGood(F);
  }

  lemma IfBodyTiled(F: seq<Word>, c: seq<Word>, b: seq<Word>)
    requires Tiled(c, 0) && Tiled(b, 0) && At(F, 0, c) && At(F, |c| + 7, b)
    requires At(F, |c|, TestCode(|b| + 4, False)) && At(F, |c| + 6, [Op(POP, 1)])
    requires Entry(F, |c| + 7 + |b|) && Entry(F, |c| + 8 + |b|)
    ensures GoodRange(F, 0, |c| + 7 + |b|) && Entry(F, 0)
  {
    SubBlockGood(F, |c| + 7, b);
    EntryOf(F, |c| + 7, b);
    OneGood(F, |c| + 6, Op(POP, 1));
    TestGood(F, |c|, |b| + 4, False);
    SubBlockGood(F, 0, c);
    EntryOf(F, 0, c);
    Joined(F, 0, |c|, 6);
    Joined(F, 0, |c| + 6, 1);
    Joined(F, 0, |c| + 7, |b|);
  }

  lemma WhilePieces(F: seq<Word>, c: seq<Word>, b: seq<Word>, e: seq<Word>)
    requires F == WhileCode(c, b, e) && NoJumps(c) && Paired(b) && Paired(e)
    ensures CondAt(F, 0, c, |b| + 5) && BackAt(F, 0, |c| + 7, |b|, |e|) && At(F, |c| + 7, b) && At(F, |c| + 10 + |b|, e)
    ensures |F| == |c| + 10 + |b| + |e|
  {
    PlacedSelf(F);
    WhileSplit(F, 0, c, b, e, map[]);
    PlacedNone(F, |c| + 7, b);
    PlacedNone(F, |c| + 10 + |b|, e);
  }

  lemma WhileTiled(c: seq<Word>, b: seq<Word>, e: seq<Word>)
    requires Tiled(c, 0) && Tiled(b, 1) && Tiled(e, 0) && NoJumps(c) && Paired(b) && Paired(e)
    ensures Tiled(WhileCode(c, b, e), 0)
  {
    var F := WhileCode(c, b, e);
    WhilePieces(F, c, b, e);
    SubBlockGood(F, |c| + 10 + |b|, e);
    EntryOf(F, |c| + 10 + |b|, e);
    OneGood(F, |c| + 9 + |b|, Op(POP, 1));
    OneGood(F, |c| + 8 + |b|, Op(BR, |e| + 2));
    WhileBodyTiled(F, c, b);
    Joined(F, 0, |c| + 8 + |b|, 1);
    Joined(F, 0, |c| + 9 + |b|, 1);
    Joined(F, 0, |c| + 10 + |b|, |e|);
    AllGood(F);
  }

  lemma WhileBodyTiled(F: seq<Word>, c: seq<Word>, b: seq<Word>)
    requires Tiled(c, 0) && Tiled(b, 1) && At(F, 0, c) && At(F, |c| + 7, b)
    requires At(F, |c|, TestCode(|b| + 5, False)) && At(F, |c| + 6, [Op(POP, 1)])
    requires At(F, |c| + 7 + |b|, [Op(BR, -(|c| + 7 + |b|))])
    requires Entry(F, |c| + 8 + |b|) && Entry(F, |c| + 9 + |b|)
    ensures GoodRange(F, 0, |c| + 8 + |b|) && Entry(F, 0)
  {
    AtWord(F, |c| + 7 + |b|, [Op(BR, -(|c| + 7 + |b|))], 0);
    SubBlock(F, |c| + 7, b, 1);
    if |b| > 0 { AtWord(F, |c| + 7, b, 0); }
    OneGood(F, |c| + 6, Op(POP, 1));
    TestGood(F, |c|, |b| + 5, False);
    SubBlockGood(F, 0, c);
    EntryOf(F, 0, c);
    OneGood(F, |c| + 7 + |b|, Op(BR, -(|c| + 7 + |b|)));
    Joined(F, 0, |c|, 6);
    Joined(F, 0, |c| + 6, 1);
    Joined(F, 0, |c| + 7, |b|);
    Joined(F, 0, |c| + 7 + |b|, 1);
  }

  /** With no targets, code in place is the code itself. */
  lemma PlacedSelf(c: seq<Word>)
    ensures Placed(c, 0, c, map[])
  {
  }

  lemma PlacedNone(F: seq<Word>, o: nat, c: seq<Word>)
    requires Placed(F, o, c, map[])
    ensures At(F, o, c)
  {
    forall i | 0 <= i < |c|
      ensures F[o + i] == c[i]
    {
      assert F[o + i] == Resolved(c, i, o, map[]);
    }
  }

  lemma SeqTiled(a: seq<Word>, b: seq<Word>)
    requires Tiled(a, 0) && Tiled(b, 0)
    ensures Tiled(a + b, 0)
  {
    var F := a + b;
    SelfAt(F);
    AtSplit(F, 0, a, b);
    SubBlockGood(F, |a|, b);
    EntryOf(F, |a|, b);
    SubBlockGood(F, 0, a);
    EntryOf(F, 0, a);
    Joined(F, 0, |a|, |b|);
    AllGood(F);
  }

  /** In the code of any statement every instruction starts where the one before it
      ends and every jump lands on the first word of an instruction or at the end
      of the code. */
  lemma {:induction false} StmtTiled(s: Stmt)
    ensures Tiled(StmtCode(s), 0)
    decreases s
  {
    match s
    case Pass =>
    case ExprStmt(e) =>
      ExprTiled(e);
      SeqTiled(ExprCode(e), [Op(POP, 1)]);
    case Seq(s1, s2) =>
      StmtTiled(s1);
      StmtTiled(s2);
      SeqTiled(StmtCode(s1), StmtCode(s2));
    case If(arms) =>
      ArmsTiled(arms);
    case While(tag, cond, body, els) =>
      StmtTiled(body);
      StmtPaired(body);
      StmtTiled(els);
      LoopTiled(tag, cond, StmtCode(body), els);
    case Break(_) =>
    case Continue(_) =>
  }

  lemma LoopTiled(tag: string, cond: Expr, b: seq<Word>, els: Stmt)
    requires Tiled(b, 0) && Paired(b) && Tiled(StmtCode(els), 0)
    ensures Tiled(WhileCode(ExprCode(cond), Patched(b, tag), StmtCode(els)), 0)
  {
    PatchedTiled(b, tag);
    PatchedPaired(b, tag);
    StmtPaired(els);
    ExprTiled(cond);
    ExprNoJumps(cond);
    WhileTiled(ExprCode(cond), Patched(b, tag), StmtCode(els));
  }

  lemma {:induction false} ArmsTiled(arms: Arms)
    ensures Tiled(ArmsCode(arms), 0)
    decreases arms
  {
    match arms
    case Else(s) =>
      StmtTiled(s);
    case Arm(cond, body, rest) =>
      StmtTiled(body);
      ArmsTiled(rest);
      ExprTiled(cond);
      ExprNoJumps(cond);
      StmtPaired(body);
      ArmsPaired(rest);
      IfTiled(ExprCode(cond), StmtCode(body), ArmsCode(rest));
  }
}
