/** Whole programs: the machine on compiled code does what the program says, stops
    exactly when the program does, and never goes wrong on the way. */
module ProgramCorrect {
  import opened Machine
  import opened Language
  import opened CodeShape
  import opened ExprCorrect
  import opened StmtCorrect
  import opened JumpTargets
  import opened CodeGen
  import opened Chains

  // ----- the source language -----

  /** More fuel does not change a finished run. */
  lemma {:induction false} MoreIsSame(host: Host, rule: Chaining, s: Stmt, tr: Trace, f: nat, g: nat)
    requires f <= g && !Exec(host, rule, s, tr, f).OutOfFuel?
    ensures Exec(host, rule, s, tr, g) == Exec(host, rule, s, tr, f)
    decreases f, s
  {
    match s
    case Pass =>
    case ExprStmt(_) =>
    case Seq(s1, s2) =>
      MoreIsSame(host, rule, s1, tr, f, g);
      var o := Exec(host, rule, s1, tr, f);
      if o.Normal? { MoreIsSame(host, rule, s2, o.tr, f, g); }
    case If(arms) =>
      MoreIsSameArms(host, rule, arms, tr, f, g);
    case While(tag, cond, body, els) =>
      var (v, tr1) := Eval(host, rule, cond, tr);
      var (t, tr2) := CallObj(host, tr1, v, BOOL, []);
      ExecWhile(host, rule, s, tr, f, t, tr2);
      ExecWhile(host, rule, s, tr, g, t, tr2);
      if t == False {
        MoreIsSame(host, rule, els, tr2, f, g);
      } else {
        MoreIsSame(host, rule, body, tr2, f, g);
        var o := Exec(host, rule, body, tr2, f);
        if Again(tag, o) { MoreIsSame(host, rule, s, o.tr, f - 1, g - 1); }
      }
    case Break(_) =>
    case Continue(_) =>
  }

  lemma {:induction false} MoreIsSameArms(host: Host, rule: Chaining, arms: Arms, tr: Trace, f: nat, g: nat)
    requires f <= g && !ExecArms(host, rule, arms, tr, f).OutOfFuel?
    ensures ExecArms(host, rule, arms, tr, g) == ExecArms(host, rule, arms, tr, f)
    decreases f, arms
  {
    match arms
    case Else(s) =>
      MoreIsSame(host, rule, s, tr, f, g);
    case Arm(cond, body, rest) =>
      var (v, tr1) := Eval(host, rule, cond, tr);
      var (t, tr2) := CallObj(host, tr1, v, BOOL, []);
      if t == False { MoreIsSameArms(host, rule, rest, tr2, f, g); } else { MoreIsSame(host, rule, body, tr2, f, g); }
  }

  // ----- the machine -----

  lemma {:induction false} Prefix(F: seq<Word>, host: Host, a: State, m: nat, n: nat)
    requires m <= n && StepN(F, host, a, n).Some?
    ensures StepN(F, host, a, m).Some?
    ensures m < n ==> Step(F, host, StepN(F, host, a, m).value).Some?
    decreases m
  {
    if m > 0 { Prefix(F, host, Step(F, host, a).value, m - 1, n - 1); }
  }

  /** A machine that has stopped makes no further turn. */
  lemma Stopped(F: seq<Word>, host: Host, a: State, n: nat, b: State, m: nat)
    requires StepN(F, host, a, n) == Some(b) && Step(F, host, b) == None && StepN(F, host, a, m).Some?
    ensures m <= n
  {
    if m > n { Prefix(F, host, a, n, m); }
  }

  // ----- whole programs -----

  /** n turns from the first word of compiled code follow the program. */
  ghost predicate Completes(F: seq<Word>, host: Host, stk: seq<Obj>, tr: Trace, out: Outcome, n: nat, b: State) {
    && StepN(F, host, State(0, stk, tr), n) == Some(b) && b.stack == stk
    && match out
       case Normal(tr') => b.pc == |F| && b.trace == tr'
       case Leave(isBreak, _, tr') => StandsBefore(F, b.pc, isBreak) && b.trace == tr'
       case OutOfFuel => false
  }

  lemma ProgramRuns(host: Host, rule: Chaining, s: Stmt, stk: seq<Obj>, tr: Trace, fuel: nat) returns (n: nat, b: State)
    requires Reads(rule, s)
    ensures StepN(StmtCode(s), host, State(0, stk, tr), n) == Some(b)
    ensures Exec(host, rule, s, tr, fuel).OutOfFuel? ==> n >= fuel
    ensures !Exec(host, rule, s, tr, fuel).OutOfFuel? ==> Completes(StmtCode(s), host, stk, tr, Exec(host, rule, s, tr, fuel), n, b)
  {
    var F := StmtCode(s);
    var G: Rel := (a: State, k: nat, c: State) => Goes(F, host, a, k, c);
    assert Sound(F, host, G);
    PlacedSelf(F);
    StmtPlaced(F, 0, s, map[]);
    StmtLength(s);
    n := StmtRuns(F, host, G, 0, s, map[], stk, tr, fuel);
    if rule.ByGrammar? { ProgramsAgree(host, s, tr, fuel); }
    var a, out := State(0, stk, tr), Exec(host, rule, s, tr, fuel);
    match out {
      case Normal(tr') =>
        b := State(|F|, stk, tr');
        assert G(a, n, b);
      case Leave(isBreak, l, tr') =>
        var pc :| StandsBefore(F, pc, isBreak) && G(a, n, State(pc, stk, tr'));
        b := State(pc, stk, tr');
      case OutOfFuel =>
        b :| G(a, n, b);
    }
    GoesSteps(F, host, a, n, b);
  }

  ghost predicate StopsAfter(F: seq<Word>, host: Host, a: State, n: nat, b: State) {
    StepN(F, host, a, n) == Some(b) && Step(F, host, b) == None
  }

  ghost predicate Stops(F: seq<Word>, host: Host, a: State) {
    exists n: nat, b :: StopsAfter(F, host, a, n, b)
  }

  ghost predicate Terminates(host: Host, rule: Chaining, s: Stmt, tr: Trace) {
    exists fuel: nat :: !Exec(host, rule, s, tr, fuel).OutOfFuel?
  }

  /** The machine stops on compiled code exactly when the program terminates. */
  lemma StopsIffTerminates(host: Host, rule: Chaining, s: Stmt, stk: seq<Obj>, tr: Trace)
    requires Reads(rule, s)
    ensures Stops(StmtCode(s), host, State(0, stk, tr)) <==> Terminates(host, rule, s, tr)
  {
    var F, a := StmtCode(s), State(0, stk, tr);
    if Stops(F, host, a) {
      var n: nat, b :| StopsAfter(F, host, a, n, b);
      var m, c := ProgramRuns(host, rule, s, stk, tr, n + 1);
      if Exec(host, rule, s, tr, n + 1).OutOfFuel? { Stopped(F, host, a, n, b, m); }
    }
    if Terminates(host, rule, s, tr) {
      var fuel: nat :| !Exec(host, rule, s, tr, fuel).OutOfFuel?;
      var m, c := ProgramRuns(host, rule, s, stk, tr, fuel);
      EndStops(F, host, stk, tr, Exec(host, rule, s, tr, fuel), m, c);
      assert StopsAfter(F, host, a, m, c);
    }
  }

  /** Wherever it stops, it is in the state the program ends in. */
  lemma StopsWhereProgramEnds(host: Host, rule: Chaining, s: Stmt, stk: seq<Obj>, tr: Trace, n: nat, b: State, fuel: nat)
    requires Reads(rule, s) && StopsAfter(StmtCode(s), host, State(0, stk, tr), n, b)
    requires !Exec(host, rule, s, tr, fuel).OutOfFuel?
    ensures Completes(StmtCode(s), host, stk, tr, Exec(host, rule, s, tr, fuel), n, b)
  {
    var F, a := StmtCode(s), State(0, stk, tr);
    var m, c := ProgramRuns(host, rule, s, stk, tr, fuel);
    EndStops(F, host, stk, tr, Exec(host, rule, s, tr, fuel), m, c);
    Stopped(F, host, a, n, b, m);
    Stopped(F, host, a, m, c, n);
  }

  lemma EndStops(F: seq<Word>, host: Host, stk: seq<Obj>, tr: Trace, out: Outcome, n: nat, b: State)
    requires Completes(F, host, stk, tr, out, n, b)
    ensures Step(F, host, b) == None
  {
  }

  /** After any number of turns the machine stands at the first word of an
      instruction, or at the end; it stops only at the end or at a jump no loop of
      the program handles, with the operand stack as it was at the start. */
  lemma NeverWrong(host: Host, s: Stmt, stk: seq<Obj>, tr: Trace, n: nat, b: State)
    requires StepN(StmtCode(s), host, State(0, stk, tr), n) == Some(b)
    ensures Entry(StmtCode(s), b.pc)
    ensures Step(StmtCode(s), host, b) == None ==> b.stack == stk && (b.pc == |StmtCode(s)| || IsJump(StmtCode(s)[b.pc]))
  {
    var F, a := StmtCode(s), State(0, stk, tr);
    var m, c := ProgramRuns(host, ByFlag, s, stk, tr, n + 1);
    var out := Exec(host, ByFlag, s, tr, n + 1);
    if out.OutOfFuel? {
      Prefix(F, host, a, n, m);
    } else {
      EndStops(F, host, stk, tr, out, m, c);
      Stopped(F, host, a, m, c, n);
      Prefix(F, host, a, n, m);
    }
  }

  /** Generate code and run it from its first word on an empty stack, for at most
      `limit` turns; no frame when no code was generated. */
  method CompileAndRun(host: Host, s: Stmt, tr: Trace, limit: nat) returns (frame: Frame?, n: nat, stopped: bool)
    ensures frame == null <==> !Unlabelled(s)
    ensures stopped ==> frame != null && Terminates(host, ByFlag, s, tr)
    ensures forall rule: Chaining, fuel: nat :: stopped && Reads(rule, s) && !Exec(host, rule, s, tr, fuel).OutOfFuel? ==>
              Completes(StmtCode(s), host, [], tr, Exec(host, rule, s, tr, fuel), n, frame.At())
    ensures frame != null && !stopped ==> n == limit && Entry(StmtCode(s), frame.pc)
  {
    var res := CompileStmt(s);
    if res == null {
      return null, 0, false;
    }
    var F := res.data[..];
    var fr := new Frame(0, [], tr);
    n, stopped := ExecLoop(F, host, fr, limit);
    frame := fr;
    NeverWrong(host, s, [], tr, n, frame.At());
    if stopped {
      assert StopsAfter(F, host, State(0, [], tr), n, frame.At());
      StopsIffTerminates(host, ByFlag, s, [], tr);
      forall rule: Chaining, fuel: nat | Reads(rule, s) && !Exec(host, rule, s, tr, fuel).OutOfFuel?
        ensures Completes(F, host, [], tr, Exec(host, rule, s, tr, fuel), n, frame.At())
      {
        StopsWhereProgramEnds(host, rule, s, [], tr, n, frame.At(), fuel);
      }
    }
  }
}
