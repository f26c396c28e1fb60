/** The stack machine: code words, one step of exec_loop, runs, and the loop
    itself as a method on a frame. */
module Machine {
  datatype Option<T> = None | Some(value: T)

  /** The objects the control-flow code looks at. CmpTrue is the true object that
      a chained comparison creates, carrying the value compared last; Value is
      any other object. */
  datatype Obj =
    | False
    | True
    | Null
    | NoKey
    | Symbol(name: string)
    | Value(id: int)
    | CmpTrue(val: Obj)

  const BOOL: Obj := Symbol("bool_?")
  const GETCMP: Obj := Symbol("getCmp_")

  datatype Opcode =
    | NOP | PUSH | BEQ | BREAK | CONTINUE
    | POP | SWAP | DUPLICATE | CHAIN_CMP | CALL | BR

  datatype Word =
    | Op(op: Opcode, param: int)
    | Data(obj: Obj)
    | Str(text: string)

  /** Calls into objects are opaque; the trace of calls made so far is the whole
      store, and what a call returns may depend on all of it. */
  datatype Event = Event(self: Obj, name: Obj, args: seq<Obj>)
  type Trace = seq<Event>
  type Host = (Trace, Event) -> Obj

  /** OP_CALL on an object. The two methods of the chained-comparison object are
      fixed: it is true, and getCmp_ returns the value it carries. */
  function CallObj(host: Host, tr: Trace, self: Obj, name: Obj, args: seq<Obj>): (Obj, Trace) {
    if self.CmpTrue? && args == [] && name == GETCMP then (self.val, tr)
    else if self.CmpTrue? && args == [] && name == BOOL then (True, tr)
    else (host(tr, Event(self, name, args)), tr + [Event(self, name, args)])
  }

  /** Words an instruction occupies: the pc-advance rule. */
  function Width(w: Word): int
    requires w.Op?
  {
    match w.op
    case NOP | PUSH => w.param
    case BEQ | BREAK | CONTINUE => 2
    case _ => 1
  }

  datatype State = State(pc: int, stack: seq<Obj>, trace: Trace)

  function DataOf(ws: seq<Word>): (r: Option<seq<Obj>>)
    ensures r.Some? ==> |r.value| == |ws|
  {
    if ws == [] then Some([])
    else if !ws[0].Data? then None
    else match DataOf(ws[1..])
      case None => None
      case Some(rest) => Some([ws[0].obj] + rest)
  }

  /** One turn of exec_loop; None when the frame has run off its code, or on a bad
      opcode or operand stack. */
  function Step(F: seq<Word>, host: Host, st: State): Option<State> {
    if !(0 <= st.pc < |F|) || !F[st.pc].Op? then None
    else
      var n := |st.stack|;
      var param := F[st.pc].param;
      var next := st.pc + Width(F[st.pc]);
      match F[st.pc].op
      case NOP => Some(st.(pc := next))
      case PUSH =>
        if param < 1 || st.pc + param > |F| then None
        else (match DataOf(F[st.pc + 1..st.pc + param])
              case None => None
              case Some(objs) => Some(st.(pc := next, stack := st.stack + objs)))
      case DUPLICATE =>
        if !(0 <= n + param < n) then None
        else Some(st.(pc := next, stack := st.stack + [st.stack[n + param]]))
      case CHAIN_CMP =>
        if n < 2 then None
        else
          var res := if st.stack[n - 1] == True then CmpTrue(st.stack[n - 2]) else False;
          Some(st.(pc := next, stack := st.stack[..n - 2] + [res]))
      case SWAP =>
        if n < 2 then None
        else Some(st.(pc := next, stack := st.stack[..n - 2] + [st.stack[n - 1], st.stack[n - 2]]))
      case POP =>
        if !(0 <= param <= n) then None
        else Some(st.(pc := next, stack := st.stack[..n - param]))
      case CALL =>
        var sp := n - (3 + 2 * param);
        if param < 0 || sp < 0 then None
        else
          var (res, tr) := CallObj(host, st.trace, st.stack[sp], st.stack[sp + 1], st.stack[sp + 3..]);
          Some(State(next, st.stack[..sp] + [res], tr))
      case BR => Some(st.(pc := st.pc + param))
      case BEQ =>
        if n < 1 || st.pc + 1 >= |F| || !F[st.pc + 1].Data? then None
        else if st.stack[n - 1] == F[st.pc + 1].obj then Some(st.(pc := st.pc + param))
        else Some(st.(pc := next))
      case BREAK => None
      case CONTINUE => None
  }

  /** n turns of the loop. */
  function StepN(F: seq<Word>, host: Host, st: State, n: nat): Option<State>
    decreases n, F
  {
    if n == 0 then Some(st)
    else match Step(F, host, st)
      case None => None
      case Some(next) => StepN(F, host, next, n - 1)
  }

  lemma {:induction false} StepAdd(F: seq<Word>, host: Host, st: State, m: nat, mid: State, n: nat)
    requires StepN(F, host, st, m) == Some(mid)
    ensures StepN(F, host, st, m + n) == StepN(F, host, mid, n)
    decreases m
  {
    if m > 0 {
      StepAdd(F, host, Step(F, host, st).value, m - 1, mid, n);
    }
  }

  /** A frame: program counter and operand stack, updated in place. */
  class Frame {
    var pc: int
    var stack: seq<Obj>
    var trace: Trace

    constructor (pc: int, stack: seq<Obj>, trace: Trace)
      ensures this.pc == pc && this.stack == stack && this.trace == trace
    {
      this.pc, this.stack, this.trace := pc, stack, trace;
    }

    ghost function At(): State
      reads this
    {
      State(pc, stack, trace)
    }

    method Push(w: Obj)
      modifies this`stack
      ensures stack == old(stack) + [w]
    {
      stack := stack + [w];
    }
  }

  /** The PUSH loop: words 1 to param - 1 of the instruction. */
  method PushWords(F: seq<Word>, frame: Frame, param: int) returns (ok: bool)
    requires 0 <= frame.pc < |F| && 1 <= param && frame.pc + param <= |F|
    modifies frame`stack
    ensures var d := DataOf(F[frame.pc + 1..frame.pc + param]);
            ok == d.Some? && frame.stack == if ok then old(frame.stack) + d.value else old(frame.stack)
  {
    var ws := F[frame.pc + 1..frame.pc + param];
    var was := frame.stack;
    var i := 0;
    assert ws[0..] == ws;
    while i < |ws|
      invariant 0 <= i <= |ws|
      invariant DataOf(ws[i..]).Some? == DataOf(ws).Some?
      invariant DataOf(ws).Some? ==> frame.stack + DataOf(ws[i..]).value == was + DataOf(ws).value
    {
      assert ws[i..][1..] == ws[i + 1..];
      if !ws[i].Data? {
        frame.stack := was;
        return false;
      }
      frame.Push(ws[i].obj);
      i := i + 1;
    }
    ok := true;
  }

  /** The opcodes that only work on the operand stack. */
  method StackTurn(F: seq<Word>, host: Host, frame: Frame) returns (ok: bool)
    requires 0 <= frame.pc < |F| && F[frame.pc].Op? && F[frame.pc].op in {DUPLICATE, CHAIN_CMP, SWAP, POP}
    modifies frame`stack
    ensures ok <==> Step(F, host, old(frame.At())).Some?
    ensures ok ==> frame.At() == Step(F, host, old(frame.At())).value.(pc := frame.pc)
    ensures !ok ==> frame.At() == old(frame.At())
  {
    var op, param, sp := F[frame.pc].op, F[frame.pc].param, |frame.stack|;
    match op {
      case DUPLICATE =>
        if !(0 <= sp + param < sp) {
          return false;
        }
        var tmp := frame.stack[sp + param];
        frame.Push(tmp);
      case CHAIN_CMP =>
        if sp < 2 {
          return false;
        }
        var a, b := frame.stack[sp - 2], frame.stack[sp - 1];
        frame.stack := frame.stack[..sp - 2];
        if b == True {
          frame.Push(CmpTrue(a));
        } else {
          frame.Push(False);
        }
      case SWAP =>
        if sp < 2 {
          return false;
        }
        frame.stack := frame.stack[..sp - 2] + [frame.stack[sp - 1], frame.stack[sp - 2]];
      case POP =>
        if !(0 <= param <= sp) {
          return false;
        }
        frame.stack := frame.stack[..sp - param];
    }
    ok := true;
  }

  /** OP_CALL. */
  method CallTurn(F: seq<Word>, host: Host, frame: Frame) returns (ok: bool)
    requires 0 <= frame.pc < |F| && F[frame.pc].Op? && F[frame.pc].op == CALL
    modifies frame
    ensures ok <==> Step(F, host, old(frame.At())).Some?
    ensures ok ==> frame.At() == Step(F, host, old(frame.At())).value.(pc := frame.pc) && frame.pc == old(frame.pc)
    ensures !ok ==> frame.At() == old(frame.At())
  {
    var param := F[frame.pc].param;
    var sp := |frame.stack| - (3 + 2 * param);
    if param < 0 || sp < 0 {
      return false;
    }
    var (res, tr) := CallObj(host, frame.trace, frame.stack[sp], frame.stack[sp + 1], frame.stack[sp + 3..]);
    frame.stack := frame.stack[..sp];
    frame.Push(res);
    frame.trace := tr;
    ok := true;
  }

  /** OP_BEQ: the object on top stays, whether it branches or not. */
  method BranchTurn(F: seq<Word>, host: Host, frame: Frame) returns (ok: bool)
    requires 0 <= frame.pc < |F| && F[frame.pc].Op? && F[frame.pc].op == BEQ
    modifies frame
    ensures ok <==> Step(F, host, old(frame.At())).Some?
    ensures ok ==> frame.At() == Step(F, host, old(frame.At())).value
    ensures !ok ==> frame.At() == old(frame.At())
  {
    var sp := |frame.stack|;
    if sp < 1 || frame.pc + 1 >= |F| || !F[frame.pc + 1].Data? {
      return false;
    }
    frame.pc := frame.pc + (if frame.stack[sp - 1] == F[frame.pc + 1].obj then F[frame.pc].param else Width(F[frame.pc]));
    ok := true;
  }

  /** The body of the switch in exec_loop, for the opcodes of control flow. */
  method Turn(F: seq<Word>, host: Host, frame: Frame) returns (ok: bool)
    modifies frame
    ensures ok <==> Step(F, host, old(frame.At())).Some?
    ensures ok ==> frame.At() == Step(F, host, old(frame.At())).value
    ensures !ok ==> frame.At() == old(frame.At())
  {
    if !(0 <= frame.pc < |F|) || !F[frame.pc].Op? {
      return false;
    }
    var op, param := F[frame.pc].op, F[frame.pc].param;
    ok := true;
    match op {
      case NOP =>
      case PUSH =>
        if param < 1 || frame.pc + param > |F| {
          return false;
        }
        ok := PushWords(F, frame, param);
      case CALL =>
        ok := CallTurn(F, host, frame);
      case BR =>
        frame.pc := frame.pc + param;
        return;
      case BEQ =>
        ok := BranchTurn(F, host, frame);
        return;
      case BREAK =>
        return false;
      case CONTINUE =>
        return false;
      case _ =>
        ok := StackTurn(F, host, frame);
    }
    if ok {
      frame.pc := frame.pc + Width(F[frame.pc]);
    }
  }

  /** exec_loop, for at most `limit` turns. */
  method ExecLoop(F: seq<Word>, host: Host, frame: Frame, limit: nat) returns (n: nat, stopped: bool)
    modifies frame
    ensures n <= limit && StepN(F, host, old(frame.At()), n) == Some(frame.At())
    ensures stopped ==> Step(F, host, frame.At()) == None
    ensures !stopped ==> n == limit
  {
    n, stopped := 0, false;
    ghost var start := frame.At();
    while n < limit
      invariant n <= limit && !stopped
      invariant StepN(F, host, start, n) == Some(frame.At())
    {
      ghost var mid := frame.At();
      var ok := Turn(F, host, frame);
      if !ok {
        stopped := true;
        return;
      }
      StepAdd(F, host, start, n, mid, 1);
      assert StepN(F, host, mid, 1) == StepN(F, host, Step(F, host, mid).value, 0);
      n := n + 1;
    }
  }
}
