/** Expressions: the machine computes the value and makes the calls that the
    language says, with chains recognised by the flag of the code block. */
module ExprCorrect {
  import opened Machine
  import opened Language
  import opened CodeShape

  /** The block C stands in the code F at o. */
  ghost predicate At(F: seq<Word>, o: nat, C: seq<Word>) {
    o + |C| <= |F| && forall i :: 0 <= i < |C| ==> F[o + i] == C[i]
  }

  lemma AtSplit(F: seq<Word>, o: nat, A: seq<Word>, B: seq<Word>)
    requires At(F, o, A + B)
    ensures At(F, o, A) && At(F, o + |A|, B)
  {
    forall i | 0 <= i < |A|
      ensures F[o + i] == A[i]
    {
      assert (A + B)[i] == A[i];
    }
    forall i | 0 <= i < |B|
      ensures F[o + |A| + i] == B[i]
    {
      assert (A + B)[|A| + i] == B[i];
    }
  }

  lemma AtCons(F: seq<Word>, o: nat, w: Word, rest: seq<Word>)
    requires At(F, o, [w] + rest)
    ensures o < |F| && F[o] == w && At(F, o + 1, rest)
  {
    assert ([w] + rest)[0] == w;
    forall i | 0 <= i < |rest|
      ensures F[o + 1 + i] == rest[i]
    {
      assert ([w] + rest)[1 + i] == rest[i];
    }
  }

  lemma AtWord(F: seq<Word>, o: nat, C: seq<Word>, i: nat)
    requires At(F, o, C) && i < |C|
    ensures F[o + i] == C[i]
  {
  }

  /** The states of n turns, one after the other. */
  ghost predicate Run(F: seq<Word>, host: Host, ss: seq<State>, n: nat) {
    |ss| == n + 1 && forall i {:trigger Step(F, host, ss[i])} :: 0 <= i < n ==> Step(F, host, ss[i]) == Some(ss[i + 1])
  }

  /** n turns lead from a to b. */
  ghost predicate Goes(F: seq<Word>, host: Host, a: State, n: nat, b: State) {
    exists ss :: Run(F, host, ss, n) && ss[0] == a && ss[n] == b
  }

  lemma GoesOn(F: seq<Word>, host: Host, a: State, m: nat, b: State, n: nat, c: State)
    requires Goes(F, host, a, m, b) && Goes(F, host, b, n, c)
    ensures Goes(F, host, a, m + n, c)
  {
    var s :| Run(F, host, s, m) && s[0] == a && s[m] == b;
    var t :| Run(F, host, t, n) && t[0] == b && t[n] == c;
    var ss := s[..m] + t;
    forall i | 0 <= i < m + n
      ensures Step(F, host, ss[i]) == Some(ss[i + 1])
    {
      if i < m {
        assert ss[i] == s[i] && ss[i + 1] == s[i + 1];
      } else {
        assert ss[i] == t[i - m] && ss[i + 1] == t[i - m + 1];
      }
    }
    assert Run(F, host, ss, m + n);
  }

  lemma OneStep(F: seq<Word>, host: Host, a: State, b: State)
    requires Step(F, host, a) == Some(b)
    ensures Goes(F, host, a, 1, b)
  {
    assert Run(F, host, [a, b], 1);
  }

  lemma NoStep(F: seq<Word>, host: Host, a: State)
    ensures Goes(F, host, a, 0, a)
  {
    assert Run(F, host, [a], 0);
  }

  lemma {:induction false} RunSteps(F: seq<Word>, host: Host, ss: seq<State>, n: nat)
    requires Run(F, host, ss, n)
    ensures StepN(F, host, ss[0], n) == Some(ss[n])
    decreases n
  {
    if n > 0 {
      assert Step(F, host, ss[0]) == Some(ss[1]);
      forall i | 0 <= i < n - 1
        ensures Step(F, host, ss[1..][i]) == Some(ss[1..][i + 1])
      {
        assert ss[1..][i] == ss[i + 1] && ss[1..][i + 1] == ss[i + 2];
      }
      RunSteps(F, host, ss[1..], n - 1);
    }
  }

  lemma GoesSteps(F: seq<Word>, host: Host, a: State, n: nat, b: State)
    requires Goes(F, host, a, n, b)
    ensures StepN(F, host, a, n) == Some(b)
  {
    var ss :| Run(F, host, ss, n) && ss[0] == a && ss[n] == b;
    RunSteps(F, host, ss, n);
  }

  // ----- single instructions -----

  lemma StepPush(F: seq<Word>, host: Host, st: State, k: nat, vs: seq<Obj>)
    requires 0 <= st.pc < |F| && 1 <= k && st.pc + k <= |F| && F[st.pc] == Op(PUSH, k)
    requires DataOf(F[st.pc + 1..st.pc + k]) == Some(vs)
    ensures Goes(F, host, st, 1, State(st.pc + k, st.stack + vs, st.trace))
  {
    OneStep(F, host, st, State(st.pc + k, st.stack + vs, st.trace));
  }

  lemma PushAt(F: seq<Word>, host: Host, o: nat, objs: seq<Word>, vs: seq<Obj>, stk: seq<Obj>, tr: Trace)
    requires o < |F| && F[o] == Op(PUSH, |objs| + 1) && At(F, o + 1, objs) && DataOf(objs) == Some(vs)
    ensures Goes(F, host, State(o, stk, tr), 1, State(o + 1 + |objs|, stk + vs, tr))
  {
    assert F[o + 1..o + (|objs| + 1)] == objs;
    StepPush(F, host, State(o, stk, tr), |objs| + 1, vs);
  }

  lemma DoPush(F: seq<Word>, host: Host, o: nat, objs: seq<Word>, vs: seq<Obj>, stk: seq<Obj>, tr: Trace)
    requires At(F, o, [Op(PUSH, |objs| + 1)] + objs) && DataOf(objs) == Some(vs)
    ensures Goes(F, host, State(o, stk, tr), 1, State(o + 1 + |objs|, stk + vs, tr))
  {
    AtCons(F, o, Op(PUSH, |objs| + 1), objs);
    PushAt(F, host, o, objs, vs, stk, tr);
  }

  lemma DoCall(F: seq<Word>, host: Host, o: nat, n: nat, stk: seq<Obj>, self: Obj, name: Obj, bind: Obj,
               args: seq<Obj>, tr: Trace)
    requires o < |F| && F[o] == Op(CALL, n) && |args| == 2 * n
    ensures var (v, tr') := CallObj(host, tr, self, name, args);
            Goes(F, host, State(o, stk + [self, name, bind] + args, tr), 1, State(o + 1, stk + [v], tr'))
  {
    var (v, tr') := CallObj(host, tr, self, name, args);
    var s := stk + [self, name, bind] + args;
    var sp := |s| - (3 + 2 * n);
    assert s[..sp] == stk && s[sp] == self && s[sp + 1] == name && s[sp + 3..] == args;
    OneStep(F, host, State(o, s, tr), State(o + 1, stk + [v], tr'));
  }

  /** PUSH of a method name (and no bind target), then CALL without arguments. */
  lemma CallNoArgs(F: seq<Word>, host: Host, o: nat, name: Obj, stk: seq<Obj>, self: Obj, tr: Trace)
    requires At(F, o, [Op(PUSH, 3), Data(name), Data(Null), Op(CALL, 0)])
    ensures var (v, tr') := CallObj(host, tr, self, name, []);
            Goes(F, host, State(o, stk + [self], tr), 2, State(o + 4, stk + [v], tr'))
  {
    var objs := [Data(name), Data(Null)];
    assert [Op(PUSH, 3), Data(name), Data(Null), Op(CALL, 0)] == ([Op(PUSH, 3)] + objs) + [Op(CALL, 0)];
    AtSplit(F, o, [Op(PUSH, 3)] + objs, [Op(CALL, 0)]);
    TwoData(name, Null);
    DoPush(F, host, o, objs, [name, Null], stk + [self], tr);
    AtWord(F, o + 3, [Op(CALL, 0)], 0);
    DoCall(F, host, o + 3, 0, stk, self, name, Null, [], tr);
    assert stk + [self] + [name, Null] == stk + [self, name, Null] + [];
    assert stk + [self, name, Null] + [] == stk + [self, name, Null];
    var (v, tr') := CallObj(host, tr, self, name, []);
    GoesOn(F, host, State(o, stk + [self], tr), 1, State(o + 3, stk + [self, name, Null], tr), 1, State(o + 4, stk + [v], tr'));
  }

  lemma TwoData(a: Obj, b: Obj)
    ensures DataOf([Data(a), Data(b)]) == Some([a, b])
  {
    assert [Data(a), Data(b)][1..] == [Data(b)];
    assert [Data(b)][1..] == [];
    assert DataOf([]) == Some([]);
    assert [b] + [] == [b] && [a] + [b] == [a, b];
  }

  lemma ThreeData(a: Obj, b: Obj, c: Obj)
    ensures DataOf([Data(a), Data(b), Data(c)]) == Some([a, b, c])
  {
    assert [Data(a), Data(b), Data(c)][1..] == [Data(b), Data(c)];
    TwoData(b, c);
    assert [a] + [b, c] == [a, b, c];
  }

  /** Where a BEQ leads. */
  function Branch(pc: int, taken: bool, dist: int): int {
    if taken then pc + dist else pc + 2
  }

  lemma DoBeq(F: seq<Word>, host: Host, o: nat, dist: int, on: Obj, stk: seq<Obj>, v: Obj, tr: Trace)
    requires At(F, o, [Op(BEQ, dist), Data(on)])
    ensures Goes(F, host, State(o, stk + [v], tr), 1, State(Branch(o, v == on, dist), stk + [v], tr))
  {
    AtWord(F, o, [Op(BEQ, dist), Data(on)], 0);
    AtWord(F, o, [Op(BEQ, dist), Data(on)], 1);
    OneStep(F, host, State(o, stk + [v], tr), State(Branch(o, v == on, dist), stk + [v], tr));
  }

  lemma DoPop(F: seq<Word>, host: Host, o: nat, stk: seq<Obj>, gone: seq<Obj>, tr: Trace)
    requires o < |F| && F[o] == Op(POP, |gone|)
    ensures Goes(F, host, State(o, stk + gone, tr), 1, State(o + 1, stk, tr))
  {
    assert (stk + gone)[..|stk|] == stk;
    OneStep(F, host, State(o, stk + gone, tr), State(o + 1, stk, tr));
  }

  lemma DoBr(F: seq<Word>, host: Host, o: nat, dist: int, stk: seq<Obj>, tr: Trace)
    requires o < |F| && F[o] == Op(BR, dist)
    ensures Goes(F, host, State(o, stk, tr), 1, State(o + dist, stk, tr))
  {
    OneStep(F, host, State(o, stk, tr), State(o + dist, stk, tr));
  }

  /** The truth test: ask, leave the answer, branch on it. */
  lemma Test(F: seq<Word>, host: Host, o: nat, dist: int, on: Obj, stk: seq<Obj>, v: Obj, tr: Trace)
    requires At(F, o, TestCode(dist, on))
    ensures var (t, tr') := CallObj(host, tr, v, BOOL, []);
            Goes(F, host, State(o, stk + [v], tr), 3, State(Branch(o + 4, t == on, dist), stk + [t], tr'))
  {
    assert TestCode(dist, on) == [Op(PUSH, 3), Data(BOOL), Data(Null), Op(CALL, 0)] + [Op(BEQ, dist), Data(on)];
    AtSplit(F, o, [Op(PUSH, 3), Data(BOOL), Data(Null), Op(CALL, 0)], [Op(BEQ, dist), Data(on)]);
    CallNoArgs(F, host, o, BOOL, stk, v, tr);
    var (t, tr') := CallObj(host, tr, v, BOOL, []);
    DoBeq(F, host, o + 4, dist, on, stk, t, tr');
    GoesOn(F, host, State(o, stk + [v], tr), 2, State(o + 4, stk + [t], tr'), 1, State(Branch(o + 4, t == on, dist), stk + [t], tr'));
  }

  /** The comparison tail: swap, call with the right operand, make the link. */
  lemma DoLink(F: seq<Word>, host: Host, o: nat, op: Obj, stk: seq<Obj>, a: Obj, b: Obj, tr: Trace)
    requires At(F, o, LinkCode(op))
    ensures var (v, tr') := Link(host, tr, a, op, b);
            Goes(F, host, State(o, stk + [a, b], tr), 5, State(o + 8, stk + [v], tr'))
  {
    var objs := [Data(op), Data(Null), Data(NoKey)];
    assert LinkCode(op) == [Op(SWAP, 0)] + ([Op(PUSH, 4)] + objs) + [Op(DUPLICATE, -5)] + [Op(CALL, 1)] + [Op(CHAIN_CMP, 0)];
    AtSplit(F, o, [Op(SWAP, 0)] + ([Op(PUSH, 4)] + objs) + [Op(DUPLICATE, -5)] + [Op(CALL, 1)], [Op(CHAIN_CMP, 0)]);
    AtSplit(F, o, [Op(SWAP, 0)] + ([Op(PUSH, 4)] + objs) + [Op(DUPLICATE, -5)], [Op(CALL, 1)]);
    AtSplit(F, o, [Op(SWAP, 0)] + ([Op(PUSH, 4)] + objs), [Op(DUPLICATE, -5)]);
    AtSplit(F, o, [Op(SWAP, 0)], [Op(PUSH, 4)] + objs);
    LinkSteps(F, host, o, op, stk, a, b, tr, objs);
  }

  lemma LinkSteps(F: seq<Word>, host: Host, o: nat, op: Obj, stk: seq<Obj>, a: Obj, b: Obj, tr: Trace, objs: seq<Word>)
    requires objs == [Data(op), Data(Null), Data(NoKey)]
    requires At(F, o, [Op(SWAP, 0)]) && At(F, o + 1, [Op(PUSH, 4)] + objs) && At(F, o + 5, [Op(DUPLICATE, -5)])
    requires At(F, o + 6, [Op(CALL, 1)]) && At(F, o + 7, [Op(CHAIN_CMP, 0)])
    ensures var (v, tr') := Link(host, tr, a, op, b);
            Goes(F, host, State(o, stk + [a, b], tr), 5, State(o + 8, stk + [v], tr'))
  {
    var s0, s3 := stk + [a, b], stk + [b, a, op, Null, NoKey, b];
    LinkStart(F, host, o, op, stk, a, b, tr, objs);
    LinkEnd(F, host, o + 6, op, stk, a, b, tr);
    assert s3 == (stk + [b]) + [a, op, Null] + [NoKey, b];
    var (v, tr') := Link(host, tr, a, op, b);
    GoesOn(F, host, State(o, s0, tr), 3, State(o + 6, s3, tr), 2, State(o + 8, stk + [v], tr'));
  }

  /** SWAP, PUSH and DUPLICATE: the call of the comparison is prepared. */
  lemma LinkStart(F: seq<Word>, host: Host, o: nat, op: Obj, stk: seq<Obj>, a: Obj, b: Obj, tr: Trace, objs: seq<Word>)
    requires objs == [Data(op), Data(Null), Data(NoKey)]
    requires At(F, o, [Op(SWAP, 0)]) && At(F, o + 1, [Op(PUSH, 4)] + objs) && At(F, o + 5, [Op(DUPLICATE, -5)])
    ensures Goes(F, host, State(o, stk + [a, b], tr), 3, State(o + 6, stk + [b, a, op, Null, NoKey, b], tr))
  {
    var s0, s1 := stk + [a, b], stk + [b, a];
    AtWord(F, o, [Op(SWAP, 0)], 0);
    assert s0[..|s0| - 2] == stk;
    OneStep(F, host, State(o, s0, tr), State(o + 1, s1, tr));
    ThreeData(op, Null, NoKey);
    DoPush(F, host, o + 1, objs, [op, Null, NoKey], s1, tr);
    var s2 := s1 + [op, Null, NoKey];
    GoesOn(F, host, State(o, s0, tr), 1, State(o + 1, s1, tr), 1, State(o + 5, s2, tr));
    AtWord(F, o + 5, [Op(DUPLICATE, -5)], 0);
    assert s2[|s2| - 5] == b && s2 + [b] == stk + [b, a, op, Null, NoKey, b];
    OneStep(F, host, State(o + 5, s2, tr), State(o + 6, s2 + [b], tr));
    GoesOn(F, host, State(o, s0, tr), 2, State(o + 5, s2, tr), 1, State(o + 6, s2 + [b], tr));
  }

  lemma LinkEnd(F: seq<Word>, host: Host, o: nat, op: Obj, stk: seq<Obj>, a: Obj, b: Obj, tr: Trace)
    requires At(F, o, [Op(CALL, 1)]) && At(F, o + 1, [Op(CHAIN_CMP, 0)])
    ensures var (v, tr') := Link(host, tr, a, op, b);
            Goes(F, host, State(o, (stk + [b]) + [a, op, Null] + [NoKey, b], tr), 2, State(o + 2, stk + [v], tr'))
  {
    AtWord(F, o, [Op(CALL, 1)], 0);
    AtWord(F, o + 1, [Op(CHAIN_CMP, 0)], 0);
    DoCall(F, host, o, 1, stk + [b], a, op, Null, [NoKey, b], tr);
    var (res, tr') := CallObj(host, tr, a, op, [NoKey, b]);
    var (v, _) := Link(host, tr, a, op, b);
    var s := stk + [b] + [res];
    assert s[..|s| - 2] == stk;
    OneStep(F, host, State(o + 1, s, tr'), State(o + 2, stk + [v], tr'));
    GoesOn(F, host, State(o, (stk + [b]) + [a, op, Null] + [NoKey, b], tr), 1, State(o + 1, s, tr'), 1, State(o + 2, stk + [v], tr'));
  }

  // ----- constructs -----

  /** A block at o that leaves one more value on the stack. */
  ghost predicate Leaves(F: seq<Word>, host: Host, o: nat, len: nat, stk: seq<Obj>, tr: Trace, v: Obj, tr': Trace, n: nat) {
    n > 0 && Goes(F, host, State(o, stk, tr), n, State(o + len, stk + [v], tr'))
  }

  lemma ConstSim(F: seq<Word>, host: Host, o: nat, obj: Obj, stk: seq<Obj>, tr: Trace)
    requires At(F, o, [Op(PUSH, 2), Data(obj)])
    ensures Leaves(F, host, o, 2, stk, tr, obj, tr, 1)
  {
    assert [Op(PUSH, 2), Data(obj)] == [Op(PUSH, 2)] + [Data(obj)];
    assert [Data(obj)][1..] == [] && DataOf([]) == Some([]) && [obj] + [] == [obj];
    DoPush(F, host, o, [Data(obj)], [obj], stk, tr);
  }

  lemma UnarySim(F: seq<Word>, host: Host, o: nat, op: Obj, el: nat, stk: seq<Obj>,
                 tr: Trace, v: Obj, tr1: Trace, n1: nat)
    requires At(F, o + el, [Op(PUSH, 3), Data(op), Data(Null), Op(CALL, 0)])
    requires Leaves(F, host, o, el, stk, tr, v, tr1, n1)
    ensures var (w, tr2) := CallObj(host, tr1, v, op, []);
            Leaves(F, host, o, el + 4, stk, tr, w, tr2, n1 + 2)
  {
    CallNoArgs(F, host, o + el, op, stk, v, tr1);
    var (w, tr2) := CallObj(host, tr1, v, op, []);
    GoesOn(F, host, State(o, stk, tr), n1, State(o + el, stk + [v], tr1), 2, State(o + el + 4, stk + [w], tr2));
  }

  lemma BinarySplit(F: seq<Word>, o: nat, op: Obj, L: seq<Word>, R: seq<Word>)
    requires At(F, o, BinaryCode(op, L, R))
    ensures At(F, o, L) && At(F, o + |L|, [Op(PUSH, 4)] + [Data(op), Data(Null), Data(NoKey)])
    ensures At(F, o + |L| + 4, R) && At(F, o + |L| + 4 + |R|, [Op(CALL, 1)])
  {
    var P := [Op(PUSH, 4), Data(op), Data(Null), Data(NoKey)];
    assert P == [Op(PUSH, 4)] + [Data(op), Data(Null), Data(NoKey)];
    AtSplit(F, o, L + P + R, [Op(CALL, 1)]);
    AtSplit(F, o, L + P, R);
    AtSplit(F, o, L, P);
  }

  /** The stack a binary operator's right operand starts from. */
  function Pending(stk: seq<Obj>, a: Obj, op: Obj): seq<Obj> {
    stk + [a, op, Null, NoKey]
  }

  lemma BinarySim(F: seq<Word>, host: Host, o: nat, op: Obj, ll: nat, rl: nat, stk: seq<Obj>,
                  tr: Trace, a: Obj, tr1: Trace, n1: nat, b: Obj, tr2: Trace, n2: nat)
    requires At(F, o + ll, [Op(PUSH, 4)] + [Data(op), Data(Null), Data(NoKey)])
    requires At(F, o + ll + 4 + rl, [Op(CALL, 1)])
    requires Leaves(F, host, o, ll, stk, tr, a, tr1, n1)
    requires Leaves(F, host, o + ll + 4, rl, Pending(stk, a, op), tr1, b, tr2, n2)
    ensures var (w, tr3) := CallObj(host, tr2, a, op, [NoKey, b]);
            Leaves(F, host, o, ll + 4 + rl + 1, stk, tr, w, tr3, n1 + n2 + 2)
  {
    var s0, s3 := State(o, stk, tr), State(o + ll + 4 + rl, Pending(stk, a, op) + [b], tr2);
    OperandsRun(F, host, o, op, ll, rl, stk, tr, a, tr1, n1, b, tr2, n2);
    var (w, tr3) := CallObj(host, tr2, a, op, [NoKey, b]);
    BinaryCall(F, host, o + ll + 4 + rl, op, stk, a, b, tr2);
    GoesOn(F, host, s0, n1 + n2 + 1, s3, 1, State(o + ll + 4 + rl + 1, stk + [w], tr3));
  }

  /** Both operands, with the call prepared between them. */
  lemma OperandsRun(F: seq<Word>, host: Host, o: nat, op: Obj, ll: nat, rl: nat, stk: seq<Obj>,
                   tr: Trace, a: Obj, tr1: Trace, n1: nat, b: Obj, tr2: Trace, n2: nat)
    requires At(F, o + ll, [Op(PUSH, 4)] + [Data(op), Data(Null), Data(NoKey)])
    requires Leaves(F, host, o, ll, stk, tr, a, tr1, n1)
    requires Leaves(F, host, o + ll + 4, rl, Pending(stk, a, op), tr1, b, tr2, n2)
    ensures Goes(F, host, State(o, stk, tr), n1 + n2 + 1, State(o + ll + 4 + rl, Pending(stk, a, op) + [b], tr2))
  {
    var s0, s2 := State(o, stk, tr), State(o + ll + 4, Pending(stk, a, op), tr1);
    BinaryPush(F, host, o + ll, op, stk, a, tr1);
    GoesOn(F, host, s0, n1, State(o + ll, stk + [a], tr1), 1, s2);
    GoesOn(F, host, s0, n1 + 1, s2, n2, State(o + ll + 4 + rl, Pending(stk, a, op) + [b], tr2));
  }

  lemma BinaryPush(F: seq<Word>, host: Host, o: nat, op: Obj, stk: seq<Obj>, a: Obj, tr: Trace)
    requires At(F, o, [Op(PUSH, 4)] + [Data(op), Data(Null), Data(NoKey)])
    ensures Goes(F, host, State(o, stk + [a], tr), 1, State(o + 4, Pending(stk, a, op), tr))
  {
    ThreeData(op, Null, NoKey);
    DoPush(F, host, o, [Data(op), Data(Null), Data(NoKey)], [op, Null, NoKey], stk + [a], tr);
    assert stk + [a] + [op, Null, NoKey] == Pending(stk, a, op);
  }

  lemma BinaryCall(F: seq<Word>, host: Host, o: nat, op: Obj, stk: seq<Obj>, a: Obj, b: Obj, tr: Trace)
    requires At(F, o, [Op(CALL, 1)])
    ensures var (w, tr') := CallObj(host, tr, a, op, [NoKey, b]);
            Goes(F, host, State(o, Pending(stk, a, op) + [b], tr), 1, State(o + 1, stk + [w], tr'))
  {
    AtWord(F, o, [Op(CALL, 1)], 0);
    DoCall(F, host, o, 1, stk, a, op, Null, [NoKey, b], tr);
    assert Pending(stk, a, op) + [b] == stk + [a, op, Null] + [NoKey, b];
  }

  // ----- comparisons -----

  lemma CompareSplit(F: seq<Word>, o: nat, op: Obj, L: seq<Word>, M: seq<Word>, R: seq<Word>)
    requires At(F, o, L + M + R + LinkCode(op))
    ensures At(F, o, L) && At(F, o + |L|, M) && At(F, o + |L| + |M|, R)
    ensures At(F, o + |L| + |M| + |R|, LinkCode(op))
  {
    AtSplit(F, o, L + M + R, LinkCode(op));
    AtSplit(F, o, L + M, R);
    AtSplit(F, o, L, M);
  }

  /** Both operands, one above the other. The left part, chain code included,
      leaves the value a to compare. */
  lemma BothOperands(F: seq<Word>, host: Host, o: nat, ll: nat, rl: nat, stk: seq<Obj>,
                     tr: Trace, a: Obj, tr1: Trace, n1: nat, b: Obj, tr2: Trace, n2: nat)
    requires Leaves(F, host, o, ll, stk, tr, a, tr1, n1)
    requires Leaves(F, host, o + ll, rl, stk + [a], tr1, b, tr2, n2)
    ensures Goes(F, host, State(o, stk, tr), n1 + n2, State(o + ll + rl, stk + [a, b], tr2))
  {
    TwoOnTop(stk, a, b);
    GoesOn(F, host, State(o, stk, tr), n1, State(o + ll, stk + [a], tr1), n2, State(o + ll + rl, stk + [a] + [b], tr2));
  }

  lemma TwoOnTop(stk: seq<Obj>, a: Obj, b: Obj)
    ensures stk + [a] + [b] == stk + [a, b]
  {
  }

  /** The chain code after a left operand with value c: either out of the whole
      comparison, or on with the value c carries. */
  lemma ChainSim(F: seq<Word>, host: Host, o: nat, dist: nat, stk: seq<Obj>, c: Obj, tr: Trace)
    requires At(F, o, ChainCode(dist))
    ensures c == False ==> Goes(F, host, State(o, stk + [c], tr), 1, State(o + dist, stk + [False], tr))
    ensures c != False ==> var (a, tr') := CallObj(host, tr, c, GETCMP, []);
                           Goes(F, host, State(o, stk + [c], tr), 3, State(o + 6, stk + [a], tr'))
  {
    var B, G := [Op(BEQ, dist), Data(False)], [Op(PUSH, 3), Data(GETCMP), Data(Null), Op(CALL, 0)];
    assert ChainCode(dist) == B + G;
    AtSplit(F, o, B, G);
    DoBeq(F, host, o, dist, False, stk, c, tr);
    if c != False {
      CallNoArgs(F, host, o + 2, GETCMP, stk, c, tr);
      var (a, tr') := CallObj(host, tr, c, GETCMP, []);
      GoesOn(F, host, State(o, stk + [c], tr), 1, State(o + 2, stk + [c], tr), 2, State(o + 6, stk + [a], tr'));
    }
  }

  // ----- and, or -----

  /** The fixed words of an and/or block with operands of ll and rl words. */
  ghost predicate AndOrAt(F: seq<Word>, o: nat, on: Obj, ll: nat, rl: nat) {
    && At(F, o + ll, [Op(DUPLICATE, -1)]) && At(F, o + ll + 1, TestCode(rl + 4, on))
    && At(F, o + ll + 7, [Op(POP, 2)]) && At(F, o + ll + 8 + rl, [Op(BR, 2)]) && At(F, o + ll + 9 + rl, [Op(POP, 1)])
  }

  lemma AndOrSplit(F: seq<Word>, o: nat, isOr: bool, L: seq<Word>, R: seq<Word>)
    requires At(F, o, AndOrCode(isOr, L, R))
    ensures At(F, o, L) && At(F, o + |L| + 8, R) && AndOrAt(F, o, if isOr then True else False, |L|, |R|)
  {
    var D, T, P := [Op(DUPLICATE, -1)], TestCode(|R| + 4, if isOr then True else False), [Op(POP, 2)];
    assert [Op(BR, 2), Op(POP, 1)] == [Op(BR, 2)] + [Op(POP, 1)];
    AtSplit(F, o, L + D + T + P + R, [Op(BR, 2), Op(POP, 1)]);
    AtSplit(F, o + |L| + 8 + |R|, [Op(BR, 2)], [Op(POP, 1)]);
    AtSplit(F, o, L + D + T + P, R);
    AtSplit(F, o, L + D + T, P);
    AtSplit(F, o, L + D, T);
    AtSplit(F, o, L, D);
  }

  /** Left operand, its truth, and the branch. */
  lemma AndOrTest(F: seq<Word>, host: Host, o: nat, on: Obj, ll: nat, rl: nat, stk: seq<Obj>,
                  tr: Trace, v: Obj, tr1: Trace, n1: nat)
    requires AndOrAt(F, o, on, ll, rl) && Leaves(F, host, o, ll, stk, tr, v, tr1, n1)
    ensures var (t, tr2) := CallObj(host, tr1, v, BOOL, []);
            Goes(F, host, State(o, stk, tr), n1 + 4, State(Branch(o + ll + 5, t == on, rl + 4), stk + [v, t], tr2))
  {
    var start, k := State(o, stk, tr), o + ll;
    AtWord(F, k, [Op(DUPLICATE, -1)], 0);
    assert stk + [v, v] == stk + [v] + [v];
    OneStep(F, host, State(k, stk + [v], tr1), State(k + 1, stk + [v] + [v], tr1));
    GoesOn(F, host, start, n1, State(k, stk + [v], tr1), 1, State(k + 1, stk + [v] + [v], tr1));
    Test(F, host, k + 1, rl + 4, on, stk + [v], v, tr1);
    var (t, tr2) := CallObj(host, tr1, v, BOOL, []);
    TwoOnTop(stk, v, t);
    GoesOn(F, host, start, n1 + 1, State(k + 1, stk + [v] + [v], tr1), 3, State(Branch(k + 5, t == on, rl + 4), stk + [v, t], tr2));
  }

  lemma AndOrShort(F: seq<Word>, host: Host, o: nat, on: Obj, ll: nat, rl: nat, stk: seq<Obj>,
                   tr: Trace, v: Obj, tr1: Trace, n1: nat, tr2: Trace)
    requires AndOrAt(F, o, on, ll, rl) && Leaves(F, host, o, ll, stk, tr, v, tr1, n1)
    requires CallObj(host, tr1, v, BOOL, []) == (on, tr2)
    ensures Leaves(F, host, o, ll + rl + 10, stk, tr, v, tr2, n1 + 5)
  {
    AndOrTest(F, host, o, on, ll, rl, stk, tr, v, tr1, n1);
    var k := o + ll + 9 + rl;
    AtWord(F, k, [Op(POP, 1)], 0);
    DoPop(F, host, k, stk + [v], [on], tr2);
    TwoOnTop(stk, v, on);
    GoesOn(F, host, State(o, stk, tr), n1 + 4, State(k, stk + [v, on], tr2), 1, State(k + 1, stk + [v], tr2));
  }

  lemma AndOrLong(F: seq<Word>, host: Host, o: nat, on: Obj, ll: nat, rl: nat, stk: seq<Obj>,
                  tr: Trace, v: Obj, tr1: Trace, n1: nat, t: Obj, tr2: Trace, w: Obj, tr3: Trace, n2: nat)
    requires AndOrAt(F, o, on, ll, rl) && Leaves(F, host, o, ll, stk, tr, v, tr1, n1)
    requires CallObj(host, tr1, v, BOOL, []) == (t, tr2) && t != on
    requires Leaves(F, host, o + ll + 8, rl, stk, tr2, w, tr3, n2)
    ensures Leaves(F, host, o, ll + rl + 10, stk, tr, w, tr3, n1 + 6 + n2)
  {
    AndOrTest(F, host, o, on, ll, rl, stk, tr, v, tr1, n1);
    var start, k, e := State(o, stk, tr), o + ll + 7, o + ll + 8 + rl;
    AtWord(F, k, [Op(POP, 2)], 0);
    DoPop(F, host, k, stk, [v, t], tr2);
    GoesOn(F, host, start, n1 + 4, State(k, stk + [v, t], tr2), 1, State(k + 1, stk, tr2));
    GoesOn(F, host, start, n1 + 5, State(k + 1, stk, tr2), n2, State(e, stk + [w], tr3));
    AtWord(F, e, [Op(BR, 2)], 0);
    DoBr(F, host, e, 2, stk + [w], tr3);
    GoesOn(F, host, start, n1 + 5 + n2, State(e, stk + [w], tr3), 1, State(e + 2, stk + [w], tr3));
  }

  // ----- the simulation -----

  /** Running the code of an expression from its first word ends just past its last
      word, with the compiled form's value on top of an otherwise unchanged stack. */
  lemma {:induction false} ExprRuns(F: seq<Word>, host: Host, o: nat, e: Expr, stk: seq<Obj>, tr: Trace) returns (n: nat)
    requires At(F, o, ExprCode(e))
    ensures var (v, tr') := Eval(host, ByFlag, e, tr);
            Leaves(F, host, o, |ExprCode(e)|, stk, tr, v, tr', n)
    decreases e, 2
  {
    match e
    case Const(obj) =>
      ConstSim(F, host, o, obj, stk, tr);
      n := 1;
    case Unary(op, e1) =>
      AtSplit(F, o, ExprCode(e1), [Op(PUSH, 3), Data(op), Data(Null), Op(CALL, 0)]);
      var n1 := ExprRuns(F, host, o, e1, stk, tr);
      var (v, tr1) := Eval(host, ByFlag, e1, tr);
      UnarySim(F, host, o, op, |ExprCode(e1)|, stk, tr, v, tr1, n1);
      n := n1 + 2;
    case Binary(op, l, r) =>
      n := BinaryRuns(F, host, o, op, l, r, e, stk, tr);
    case Compare(op, l, r) =>
      n := CompareRuns(F, host, o, op, l, r, e, stk, tr);
    case AndOr(isOr, l, r) =>
      n := AndOrRuns(F, host, o, isOr, l, r, e, stk, tr);
  }

  lemma {:induction false} BinaryRuns(F: seq<Word>, host: Host, o: nat, op: Obj, l: Expr, r: Expr, e: Expr,
                                      stk: seq<Obj>, tr: Trace) returns (n: nat)
    requires e == Binary(op, l, r) && At(F, o, ExprCode(e))
    ensures var (v, tr') := Eval(host, ByFlag, e, tr);
            Leaves(F, host, o, |ExprCode(e)|, stk, tr, v, tr', n)
    decreases e, 0
  {
    var L, R := ExprCode(l), ExprCode(r);
    BinarySplit(F, o, op, L, R);
    var n1 := ExprRuns(F, host, o, l, stk, tr);
    var (a, tr1) := Eval(host, ByFlag, l, tr);
    var n2 := ExprRuns(F, host, o + |L| + 4, r, Pending(stk, a, op), tr1);
    var (b, tr2) := Eval(host, ByFlag, r, tr1);
    BinarySim(F, host, o, op, |L|, |R|, stk, tr, a, tr1, n1, b, tr2, n2);
    n := n1 + n2 + 2;
  }

  lemma {:induction false} AndOrRuns(F: seq<Word>, host: Host, o: nat, isOr: bool, l: Expr, r: Expr, e: Expr,
                                     stk: seq<Obj>, tr: Trace) returns (n: nat)
    requires e == AndOr(isOr, l, r) && At(F, o, ExprCode(e))
    ensures var (v, tr') := Eval(host, ByFlag, e, tr);
            Leaves(F, host, o, |ExprCode(e)|, stk, tr, v, tr', n)
    decreases e, 0
  {
    var L, R := ExprCode(l), ExprCode(r);
    var on := if isOr then True else False;
    AndOrSplit(F, o, isOr, L, R);
    var n1 := ExprRuns(F, host, o, l, stk, tr);
    var (v, tr1) := Eval(host, ByFlag, l, tr);
    var (t, tr2) := CallObj(host, tr1, v, BOOL, []);
    if t == on {
      AndOrShort(F, host, o, on, |L|, |R|, stk, tr, v, tr1, n1, tr2);
      n := n1 + 5;
    } else {
      var n2 := ExprRuns(F, host, o + |L| + 8, r, stk, tr2);
      var (w, tr3) := Eval(host, ByFlag, r, tr2);
      AndOrLong(F, host, o, on, |L|, |R|, stk, tr, v, tr1, n1, t, tr2, w, tr3, n2);
      n := n1 + 6 + n2;
    }
  }

  /** The left operand and, for a chained comparison, the code up to the right
      operand: out of the comparison, or on with the value to compare. */
  lemma {:induction false} LeftRuns(F: seq<Word>, host: Host, o: nat, l: Expr, dist: nat, e: Expr,
                                    stk: seq<Obj>, tr: Trace) returns (n: nat, a: Obj, tr': Trace)
    requires e.Compare? && e.l == l && At(F, o, ExprCode(l)) && (CmpFlag(l) ==> At(F, o + |ExprCode(l)|, ChainCode(dist)))
    ensures var (c, tr1) := Eval(host, ByFlag, l, tr);
            if CmpFlag(l) && c == False then
              n > 0 && Goes(F, host, State(o, stk, tr), n, State(o + |ExprCode(l)| + dist, stk + [False], tr1))
            else
              (a, tr') == (if CmpFlag(l) then CallObj(host, tr1, c, GETCMP, []) else (c, tr1))
              && Leaves(F, host, o, |ExprCode(l)| + (if CmpFlag(l) then 6 else 0), stk, tr, a, tr', n)
    decreases e, 0
  {
    var n1 := ExprRuns(F, host, o, l, stk, tr);
    var (c, tr1) := Eval(host, ByFlag, l, tr);
    n, a, tr' := n1, c, tr1;
    if CmpFlag(l) {
      var start, k := State(o, stk, tr), o + |ExprCode(l)|;
      ChainSim(F, host, k, dist, stk, c, tr1);
      if c == False {
        GoesOn(F, host, start, n1, State(k, stk + [c], tr1), 1, State(k + dist, stk + [False], tr1));
        n := n1 + 1;
      } else {
        var (x, y) := CallObj(host, tr1, c, GETCMP, []);
        a, tr' := x, y;
        GoesOn(F, host, start, n1, State(k, stk + [c], tr1), 3, State(k + 6, stk + [a], tr'));
        n := n1 + 3;
      }
    }
  }

  /** The pieces of a comparison's code. */
  lemma CompareParts(F: seq<Word>, o: nat, op: Obj, l: Expr, r: Expr) returns (ll: nat, rl: nat)
    requires At(F, o, ExprCode(Compare(op, l, r)))
    ensures rl == |ExprCode(r)| && ll == |ExprCode(l)| + (if CmpFlag(l) then 6 else 0)
    ensures |ExprCode(Compare(op, l, r))| == ll + rl + 8
    ensures At(F, o, ExprCode(l)) && (CmpFlag(l) ==> At(F, o + |ExprCode(l)|, ChainCode(rl + 14)))
    ensures At(F, o + ll, ExprCode(r)) && At(F, o + ll + rl, LinkCode(op))
  {
    var L, R := ExprCode(l), ExprCode(r);
    var M := if CmpFlag(l) then ChainCode(|R| + 14) else [];
    CompareSplit(F, o, op, L, M, R);
    ll, rl := |L| + |M|, |R|;
  }

  lemma {:induction false} CompareRuns(F: seq<Word>, host: Host, o: nat, op: Obj, l: Expr, r: Expr, e: Expr,
                                       stk: seq<Obj>, tr: Trace) returns (n: nat)
    requires e == Compare(op, l, r) && At(F, o, ExprCode(e))
    ensures var (v, tr') := Eval(host, ByFlag, e, tr);
            Leaves(F, host, o, |ExprCode(e)|, stk, tr, v, tr', n)
    decreases e, 1
  {
    var ll, rl := CompareParts(F, o, op, l, r);
    var a, tr2;
    n, a, tr2 := LeftRuns(F, host, o, l, rl + 14, e, stk, tr);
    CompareEval(host, op, l, r, tr, a, tr2);
    if !(CmpFlag(l) && Eval(host, ByFlag, l, tr).0 == False) {
      n := RightRuns(F, host, o, op, r, e, ll, stk, tr, a, tr2, n);
    }
  }

  /** A comparison's value: its left operand's failure, or the link from a. */
  lemma CompareEval(host: Host, op: Obj, l: Expr, r: Expr, tr: Trace, a: Obj, tr2: Trace)
    requires var (c, tr1) := Eval(host, ByFlag, l, tr);
             !(CmpFlag(l) && c == False) ==> (a, tr2) == (if CmpFlag(l) then CallObj(host, tr1, c, GETCMP, []) else (c, tr1))
    ensures var (c, tr1) := Eval(host, ByFlag, l, tr);
            var (b, tr3) := Eval(host, ByFlag, r, tr2);
            Eval(host, ByFlag, Compare(op, l, r), tr) == if CmpFlag(l) && c == False then (False, tr1) else Link(host, tr3, a, op, b)
  {
  }

  lemma LinkSim(F: seq<Word>, host: Host, o: nat, op: Obj, ll: nat, rl: nat, stk: seq<Obj>,
                tr: Trace, a: Obj, tr1: Trace, n1: nat, b: Obj, tr2: Trace, n2: nat) returns (n: nat)
    requires At(F, o + ll + rl, LinkCode(op))
    requires Leaves(F, host, o, ll, stk, tr, a, tr1, n1)
    requires Leaves(F, host, o + ll, rl, stk + [a], tr1, b, tr2, n2)
    ensures var (w, tr3) := Link(host, tr2, a, op, b);
            Leaves(F, host, o, ll + rl + 8, stk, tr, w, tr3, n)
  {
    BothOperands(F, host, o, ll, rl, stk, tr, a, tr1, n1, b, tr2, n2);
    DoLink(F, host, o + ll + rl, op, stk, a, b, tr2);
    var (w, tr3) := Link(host, tr2, a, op, b);
    GoesOn(F, host, State(o, stk, tr), n1 + n2, State(o + ll + rl, stk + [a, b], tr2), 5, State(o + ll + rl + 8, stk + [w], tr3));
    n := n1 + n2 + 5;
  }

  /** The right operand and the link. */
  lemma {:induction false} RightRuns(F: seq<Word>, host: Host, o: nat, op: Obj, r: Expr, e: Expr, ll: nat,
                                     stk: seq<Obj>, tr: Trace, a: Obj, tr1: Trace, n1: nat) returns (n: nat)
    requires e.Compare? && e.r == r && At(F, o + ll, ExprCode(r)) && At(F, o + ll + |ExprCode(r)|, LinkCode(op))
    requires Leaves(F, host, o, ll, stk, tr, a, tr1, n1)
    ensures var (b, tr2) := Eval(host, ByFlag, r, tr1);
            var (w, tr3) := Link(host, tr2, a, op, b);
            Leaves(F, host, o, ll + |ExprCode(r)| + 8, stk, tr, w, tr3, n)
    decreases e, 0
  {
    var n2 := ExprRuns(F, host, o + ll, r, stk + [a], tr1);
    var (b, tr2) := Eval(host, ByFlag, r, tr1);
    n := LinkSim(F, host, o, op, ll, |ExprCode(r)|, stk, tr, a, tr1, n1, b, tr2, n2);
  }
}
