/** The reader/writer lock of an object: every interleaving of the atomic steps of
    read_lock, read_unlock, write_lock and write_unlock by any number of threads. */
module Lock {
  /** Where a thread stands. R, U and W are read_lock, read_unlock and the write
      calls; the comments give the statement to come. */
  datatype PC =
    | Idle
    | RGet      // take the flag
    | RCheck    // permission, notify, waiting writers
    | RDeny     // give the flag back and fail
    | RSpin     // take the flag again
    | RAgain    // test for waiting writers again
    | RPush     // push on the lock stack
    | RInc      // rdlock_cnt++
    | RDone     // give the flag back
    | UGet      // take the flag
    | UDec      // rdlock_cnt--
    | UFree     // give the flag back
    | UPop      // pop the lock stack
    | UGet2     // it was not there: take the flag
    | UInc      // rdlock_cnt++
    | UFree2    // give the flag back
    | WGet      // take the flag
    | WCheck    // permission, readers
    | WDeny     // give the flag back and fail
    | WLoop     // test for readers
    | WFree     // wrlock_req_cnt is up: give the flag back
    | WWait     // wait, then take the flag
    | WBack     // wrlock_req_cnt--
    | Writing   // write_lock has returned
    | VFree     // write_unlock without having written: give the flag back

  /** stack: how often the object is on the thread's lock stack. */
  datatype Thread = Thread(pc: PC, stack: nat)

  const FREE: int := -1

  /** wrlock: the thread that set the flag, or FREE. */
  datatype State = State(wrlock: int, rdcnt: int, reqcnt: int, ts: seq<Thread>)

  function Move(s: State, t: nat, pc: PC): State
    requires t < |s.ts|
  {
    s.(ts := s.ts[t := s.ts[t].(pc := pc)])
  }

  function Stack(s: State, t: nat, pc: PC, stack: nat): State
    requires t < |s.ts|
  {
    s.(ts := s.ts[t := Thread(pc, stack)])
  }

  /** Take the flag, if it is free. */
  predicate Takes(s: State, t: nat, pc: PC, s': State)
    requires t < |s.ts|
  {
    s.wrlock == FREE && s' == Move(s, t, pc).(wrlock := t)
  }

  predicate Frees(s: State, t: nat, pc: PC, s': State)
    requires t < |s.ts|
  {
    s' == Move(s, t, pc).(wrlock := FREE)
  }

  /** One atomic step of thread t. */
  predicate Step(s: State, t: nat, s': State) {
    t < |s.ts| &&
    var stack := s.ts[t].stack;
    match s.ts[t].pc
    case Idle =>
      || s' == Move(s, t, RGet) || s' == Move(s, t, UGet) || s' == Move(s, t, WGet)
      || (s.wrlock != FREE && s' == Move(s, t, VFree))
    case RGet => Takes(s, t, RCheck, s')
    case RCheck =>
      || s' == Move(s, t, RDeny)
      || Frees(s, t, RGet, s')
      || (if s.reqcnt != 0 && stack == 0 then Frees(s, t, RSpin, s') else s' == Move(s, t, RPush))
    case RDeny => Frees(s, t, Idle, s')
    case RSpin => Takes(s, t, RAgain, s')
    case RAgain => if s.reqcnt != 0 then Frees(s, t, RSpin, s') else s' == Move(s, t, RPush)
    case RPush => s' == Stack(s, t, RInc, stack + 1)
    case RInc => s' == Move(s, t, RDone).(rdcnt := s.rdcnt + 1)
    case RDone => Frees(s, t, Idle, s')
    case UGet => Takes(s, t, UDec, s')
    case UDec => s' == Move(s, t, UFree).(rdcnt := s.rdcnt - 1)
    case UFree => Frees(s, t, UPop, s')
    case UPop => s' == if stack > 0 then Stack(s, t, Idle, stack - 1) else Move(s, t, UGet2)
    case UGet2 => Takes(s, t, UInc, s')
    case UInc => s' == Move(s, t, UFree2).(rdcnt := s.rdcnt + 1)
    case UFree2 => Frees(s, t, Idle, s')
    case WGet => Takes(s, t, WCheck, s')
    case WCheck =>
      || s' == Move(s, t, WDeny)
      || (if s.rdcnt == 0 then s' == Move(s, t, Writing)
          else if stack > 0 then s' == Move(s, t, WDeny).(rdcnt := s.rdcnt - stack)
          else s' == Move(s, t, WLoop))
    case WDeny => Frees(s, t, Idle, s')
    case WLoop => s' == if s.rdcnt == 0 then Move(s, t, Writing) else Move(s, t, WFree).(reqcnt := s.reqcnt + 1)
    case WFree => Frees(s, t, WWait, s')
    case WWait => Takes(s, t, WBack, s')
    case WBack => s' == Move(s, t, WLoop).(reqcnt := s.reqcnt - 1)
    case Writing => Frees(s, t, Idle, s')
    case VFree => Frees(s, t, Idle, s')
  }

  predicate Init(s: State) {
    s.wrlock == FREE && s.rdcnt == 0 && s.reqcnt == 0 && forall t :: 0 <= t < |s.ts| ==> s.ts[t] == Thread(Idle, 0)
  }

  /** The three calls a thread must not make: unlocking what it has not read-locked,
      asking for the write lock while it reads, and write_unlock when the flag is
      not its own (the routine asserts only that the flag is set). */
  predicate Misuse(s: State, t: nat, s': State) {
    t < |s.ts| && t < |s'.ts| &&
    ((s.ts[t].pc == Idle && s'.ts[t].pc == UGet && s.ts[t].stack == 0)
     || (s.ts[t].pc == WCheck && s.ts[t].stack > 0)
     || (s.ts[t].pc == Idle && s'.ts[t].pc == VFree))
  }

  // ----- the invariant -----

  predicate HoldsFlag(pc: PC) {
    pc in {RCheck, RDeny, RAgain, RPush, RInc, RDone, UDec, UFree, UInc, UFree2, WCheck, WDeny, WLoop, WFree, WBack, Writing}
  }

  /** The read counter is one short of the lock stack: between push and increment,
      and between decrement and pop. */
  predicate Lags(pc: PC) {
    pc in {RInc, UFree, UPop, UGet2, UInc}
  }

  /** The thread's share of rdlock_cnt. */
  function Share(th: Thread): int {
    th.stack - (if Lags(th.pc) then 1 else 0)
  }

  predicate Waits(th: Thread) {
    th.pc in {WFree, WWait, WBack}
  }

  function Shares(ts: seq<Thread>): int {
    if ts == [] then 0 else Share(ts[0]) + Shares(ts[1..])
  }

  function Waiting(ts: seq<Thread>): int {
    if ts == [] then 0 else (if Waits(ts[0]) then 1 else 0) + Waiting(ts[1..])
  }

  /** The thread reads: its lock counts. */
  predicate Reads(th: Thread) {
    Share(th) > 0
  }

  ghost predicate Flag(s: State) {
    forall t :: 0 <= t < |s.ts| ==> (HoldsFlag(s.ts[t].pc) <==> s.wrlock == t)
  }

  ghost predicate Counts(s: State) {
    s.rdcnt == Shares(s.ts) && s.reqcnt == Waiting(s.ts)
  }

  /** What a single thread keeps to. */
  predicate Orderly(s: State, th: Thread) {
    && (th.pc in {RInc, UGet, UDec, UFree, UPop} ==> th.stack > 0)
    && th.pc !in {UGet2, UInc, UFree2, VFree}
    && (th.pc == Writing ==> s.rdcnt == 0)
    && (th.pc == RPush && th.stack == 0 ==> s.reqcnt == 0)
    && (th.pc == RInc && th.stack == 1 ==> s.reqcnt == 0)
  }

  ghost predicate Inv(s: State) {
    && -1 <= s.wrlock < |s.ts| && Flag(s) && Counts(s)
    && forall t :: 0 <= t < |s.ts| ==> Orderly(s, s.ts[t])
  }

  // ----- sums -----

  lemma {:induction false} SharesUpdate(ts: seq<Thread>, t: nat, th: Thread)
    requires t < |ts|
    ensures Shares(ts[t := th]) == Shares(ts) - Share(ts[t]) + Share(th)
    decreases |ts|
  {
    if t == 0 {
      assert ts[0 := th][1..] == ts[1..];
    } else {
      SharesUpdate(ts[1..], t - 1, th);
      assert ts[t := th][1..] == ts[1..][t - 1 := th];
    }
  }

  lemma {:induction false} WaitingUpdate(ts: seq<Thread>, t: nat, th: Thread)
    requires t < |ts|
    ensures Waiting(ts[t := th]) == Waiting(ts) - (if Waits(ts[t]) then 1 else 0) + (if Waits(th) then 1 else 0)
    decreases |ts|
  {
    if t == 0 {
      assert ts[0 := th][1..] == ts[1..];
    } else {
      WaitingUpdate(ts[1..], t - 1, th);
      assert ts[t := th][1..] == ts[1..][t - 1 := th];
    }
  }

  lemma {:induction false} SharesZero(ts: seq<Thread>, t: nat)
    requires (forall i :: 0 <= i < |ts| ==> Share(ts[i]) >= 0) && t < |ts|
    ensures 0 <= Share(ts[t]) <= Shares(ts)
    decreases |ts|
  {
    if t > 0 {
      SharesZero(ts[1..], t - 1);
    } else if |ts| > 1 {
      SharesZero(ts[1..], 0);
    }
  }

  lemma {:induction false} WaitingSome(ts: seq<Thread>, t: nat)
    requires t < |ts| && Waits(ts[t])
    ensures Waiting(ts) > 0
    decreases |ts|
  {
    WaitingSign(ts[1..]);
    if t > 0 { WaitingSome(ts[1..], t - 1); }
  }

  lemma {:induction false} WaitingSign(ts: seq<Thread>)
    ensures Waiting(ts) >= 0
    decreases |ts|
  {
    if ts != [] { WaitingSign(ts[1..]); }
  }

  // ----- every step keeps it -----

  lemma InitInv(s: State)
    requires Init(s)
    ensures Inv(s)
  {
    AllIdle(s.ts);
  }

  lemma {:induction false} AllIdle(ts: seq<Thread>)
    requires forall t :: 0 <= t < |ts| ==> ts[t] == Thread(Idle, 0)
    ensures Shares(ts) == 0 && Waiting(ts) == 0
    decreases |ts|
  {
    if ts != [] { AllIdle(ts[1..]); }
  }

  /** A step changes its own thread only. */
  lemma StepMoves(s: State, t: nat, s': State)
    requires Step(s, t, s')
    ensures |s'.ts| == |s.ts| && s'.ts == s.ts[t := s'.ts[t]]
  {
  }

  /** And the counters by its change of share. */
  lemma StepShare(s: State, t: nat, s': State)
    requires t < |s.ts| == |s'.ts| && Step(s, t, s') && Orderly(s, s.ts[t]) && !Misuse(s, t, s')
    ensures s'.rdcnt - s.rdcnt == Share(s'.ts[t]) - Share(s.ts[t])
  {
  }

  lemma StepWaits(s: State, t: nat, s': State)
    requires t < |s.ts| == |s'.ts| && Step(s, t, s') && Orderly(s, s.ts[t]) && !Misuse(s, t, s')
    ensures s'.reqcnt - s.reqcnt == (if Waits(s'.ts[t]) then 1 else 0) - (if Waits(s.ts[t]) then 1 else 0)
  {
  }

  lemma StepCounts(s: State, t: nat, s': State)
    requires Inv(s) && Step(s, t, s') && !Misuse(s, t, s')
    ensures Counts(s') && |s'.ts| == |s.ts|
  {
    StepMoves(s, t, s');
    StepShare(s, t, s');
    StepWaits(s, t, s');
    SharesUpdate(s.ts, t, s'.ts[t]);
    WaitingUpdate(s.ts, t, s'.ts[t]);
  }

  lemma StepFlag(s: State, t: nat, s': State)
    requires Inv(s) && Step(s, t, s')
    ensures |s'.ts| == |s.ts| && -1 <= s'.wrlock < |s.ts| && Flag(s')
  {
  }

  /** The counters change only under the flag. */
  lemma StepOthers(s: State, t: nat, s': State, u: nat)
    requires Inv(s) && Step(s, t, s') && u < |s.ts| && u != t
    ensures s'.ts[u] == s.ts[u] && Orderly(s', s.ts[u])
  {
    assert Orderly(s, s.ts[u]);
  }

  lemma StepInv(s: State, t: nat, s': State)
    requires Inv(s) && Step(s, t, s') && !Misuse(s, t, s')
    ensures Inv(s')
  {
    StepCounts(s, t, s');
    StepFlag(s, t, s');
    forall u | 0 <= u < |s'.ts|
      ensures Orderly(s', s'.ts[u])
    {
      if u != t { StepOthers(s, t, s', u); } else { assert Orderly(s, s.ts[t]); }
    }
  }

  // ----- whole runs -----

  /** A run from the start: who moves, and the states passed. */
  ghost predicate Run(states: seq<State>, who: seq<nat>) {
    && |states| == |who| + 1 && Init(states[0])
    && forall i :: 0 <= i < |who| ==> Step(states[i], who[i], states[i + 1])
  }

  ghost predicate Proper(states: seq<State>, who: seq<nat>) {
    |states| == |who| + 1 && forall i :: 0 <= i < |who| ==> !Misuse(states[i], who[i], states[i + 1])
  }

  lemma {:induction false} RunInv(states: seq<State>, who: seq<nat>, i: nat)
    requires Run(states, who) && Proper(states, who) && i < |states|
    ensures Inv(states[i])
    decreases i
  {
    if i == 0 {
      InitInv(states[0]);
    } else {
      RunInv(states, who, i - 1);
      StepInv(states[i - 1], who[i - 1], states[i]);
    }
  }

  /** While a thread writes, no thread reads and no other writes, in every state of
      every run. */
  lemma Exclusion(states: seq<State>, who: seq<nat>, i: nat, w: nat, t: nat)
    requires Run(states, who) && Proper(states, who) && i < |states|
    requires w < |states[i].ts| && states[i].ts[w].pc == Writing && t < |states[i].ts|
    ensures !Reads(states[i].ts[t]) && (t != w ==> states[i].ts[t].pc != Writing)
  {
    RunInv(states, who, i);
    var s := states[i];
    assert Orderly(s, s.ts[w]);
    forall j | 0 <= j < |s.ts|
      ensures Share(s.ts[j]) >= 0
    {
      assert Orderly(s, s.ts[j]);
    }
    SharesZero(s.ts, t);
  }

  /** rdlock_cnt is the number of lock-stack entries, up to the threads between the
      two steps of a lock or unlock; wrlock_req_cnt is the number of waiting
      writers. */
  lemma CountersExact(states: seq<State>, who: seq<nat>, i: nat)
    requires Run(states, who) && Proper(states, who) && i < |states|
    ensures states[i].rdcnt == Shares(states[i].ts) >= 0 && states[i].reqcnt == Waiting(states[i].ts)
  {
    RunInv(states, who, i);
    var s := states[i];
    forall j | 0 <= j < |s.ts|
      ensures Share(s.ts[j]) >= 0
    {
      assert Orderly(s, s.ts[j]);
    }
    if |s.ts| > 0 { SharesZero(s.ts, 0); }
  }

  /** While a writer waits, no thread that does not read yet becomes a reader. */
  lemma NoNewReaders(states: seq<State>, who: seq<nat>, i: nat, t: nat)
    requires Run(states, who) && Proper(states, who) && i < |who|
    requires t < |states[i].ts| && !Reads(states[i].ts[t]) && Waiting(states[i].ts) > 0
    ensures |states[i + 1].ts| == |states[i].ts| && !Reads(states[i + 1].ts[t])
  {
    RunInv(states, who, i);
    var s := states[i];
    assert Orderly(s, s.ts[t]) && Step(s, who[i], states[i + 1]);
    if who[i] != t { StepOthers(s, who[i], states[i + 1], t); }
  }

  // ----- how waiting ends -----

  /** A writer that found readers and waits for them to go. */
  predicate WriterWaits(pc: PC) {
    pc in {WLoop, WFree, WWait, WBack}
  }

  /** A reader that found a waiting writer and waits for it. */
  predicate ReaderWaits(pc: PC) {
    pc in {RSpin, RAgain}
  }

  /** A waiting writer leaves its wait only by getting the lock, in every step of every
      run, whoever makes it; a refusal comes before any waiting. */
  lemma WritersGetIn(states: seq<State>, who: seq<nat>, i: nat, t: nat)
    requires Run(states, who) && i < |who| && t < |states[i].ts|
    ensures |states[i + 1].ts| == |states[i].ts|
    ensures var was, now := states[i].ts[t].pc, states[i + 1].ts[t].pc;
            && (WriterWaits(was) ==> WriterWaits(now) || now == Writing)
            && (now == WDeny && was != WDeny ==> was == WCheck)
            && (now == Writing && was != Writing ==> (was == WCheck || was == WLoop) && states[i].rdcnt == 0)
  {
    StepMoves(states[i], who[i], states[i + 1]);
    assert Step(states[i], who[i], states[i + 1]);
  }

  /** A waiting reader leaves its wait only to take the read lock; a thread that reads
      already never waits. */
  lemma ReadersGetIn(states: seq<State>, who: seq<nat>, i: nat, t: nat)
    requires Run(states, who) && i < |who| && t < |states[i].ts|
    ensures |states[i + 1].ts| == |states[i].ts|
    ensures var was, now := states[i].ts[t].pc, states[i + 1].ts[t].pc;
            && (ReaderWaits(was) ==> ReaderWaits(now) || now == RPush)
            && (ReaderWaits(now) && !ReaderWaits(was) ==> was == RCheck && states[i].ts[t].stack == 0 && states[i].reqcnt != 0)
            && (now == RPush && was != RPush ==> states[i].reqcnt == 0 || states[i].ts[t].stack > 0)
  {
    StepMoves(states[i], who[i], states[i + 1]);
    assert Step(states[i], who[i], states[i + 1]);
  }

  /** Every call ends: after a refusal, after the last step of read_lock, of the error
      path of read_unlock and of write_unlock the thread is idle, the flag is free and
      nothing else has changed. */
  lemma CallsEnd(states: seq<State>, who: seq<nat>, i: nat)
    requires Run(states, who) && i < |who| && who[i] < |states[i].ts|
    requires states[i].ts[who[i]].pc in {RDeny, RDone, UFree2, WDeny, Writing, VFree}
    ensures var s, t := states[i], who[i];
            states[i + 1] == State(FREE, s.rdcnt, s.reqcnt, s.ts[t := Thread(Idle, s.ts[t].stack)])
  {
    assert Step(states[i], who[i], states[i + 1]);
  }

  // ----- runs that end in given states -----

  datatype Trail = Trail(states: seq<State>, who: seq<nat>)

  function Last(r: Trail): State
    requires r.states != []
  {
    r.states[|r.states| - 1]
  }

  /** A run in which every misuse takes its thread to `at`. */
  ghost predicate OnlyAt(r: Trail, at: PC) {
    && Run(r.states, r.who)
    && forall i :: 0 <= i < |r.who| && Misuse(r.states[i], r.who[i], r.states[i + 1]) ==> r.states[i + 1].ts[r.who[i]].pc == at
  }

  /** Such a run passes through `via` and ends in s. */
  ghost predicate Leads(r: Trail, at: PC, via: State, s: State) {
    OnlyAt(r, at) && via in r.states && Last(r) == s
  }

  ghost predicate Reached(at: PC, via: State, s: State) {
    exists r :: Leads(r, at, via, s)
  }

  lemma Start(at: PC, s: State)
    requires Init(s)
    ensures Reached(at, s, s)
  {
    assert Leads(Trail([s], []), at, s, s);
  }

  lemma Next(at: PC, via: State, s: State, t: nat, s': State)
    requires Reached(at, via, s) && Step(s, t, s')
    requires Misuse(s, t, s') ==> s'.ts[t].pc == at
    ensures Reached(at, via, s')
  {
    var r :| Leads(r, at, via, s);
    var r' := Trail(r.states + [s'], r.who + [t]);
    forall i | 0 <= i < |r'.who|
      ensures Step(r'.states[i], r'.who[i], r'.states[i + 1])
      ensures Misuse(r'.states[i], r'.who[i], r'.states[i + 1]) ==> r'.states[i + 1].ts[r'.who[i]].pc == at
    {
      if i < |r.who| {
        assert r'.states[i] == r.states[i] && r'.states[i + 1] == r.states[i + 1] && r'.who[i] == r.who[i];
      }
    }
    assert Leads(r', at, via, s');
  }

  /** The state reached may be the one passed through from here on. */
  lemma Here(at: PC, via: State, s: State)
    requires Reached(at, via, s)
    ensures Reached(at, s, s)
  {
    var r :| Leads(r, at, via, s);
    assert Leads(r, at, s, s);
  }

  /** A thread takes the read lock. */
  lemma TakesReadLock(at: PC, via: State, s: State, t: nat) returns (s': State)
    requires Reached(at, via, s) && s.wrlock == FREE && s.reqcnt == 0
    requires t < |s.ts| && s.ts[t] == Thread(Idle, 0)
    ensures Reached(at, via, s') && s' == s.(rdcnt := s.rdcnt + 1, ts := s.ts[t := Thread(Idle, 1)])
  {
    var s1 := Move(s, t, RGet);
    var s2 := Move(s, t, RCheck).(wrlock := t);
    Next(at, via, s, t, s1);
    Next(at, via, s1, t, s2);
    Next(at, via, s2, t, Move(s, t, RPush).(wrlock := t));
    s' := Pushes(at, via, s, t);
  }

  /** From the push on to the end of read_lock. */
  lemma Pushes(at: PC, via: State, s: State, t: nat) returns (s': State)
    requires t < |s.ts| && s.ts[t].stack == 0 && s.wrlock == FREE && Reached(at, via, Move(s, t, RPush).(wrlock := t))
    ensures Reached(at, via, s') && s' == s.(rdcnt := s.rdcnt + 1, ts := s.ts[t := Thread(Idle, 1)])
  {
    var s1 := Stack(s, t, RInc, 1).(wrlock := t);
    var s2 := Stack(s, t, RDone, 1).(wrlock := t, rdcnt := s.rdcnt + 1);
    s' := Stack(s, t, Idle, 1).(rdcnt := s.rdcnt + 1);
    Next(at, via, Move(s, t, RPush).(wrlock := t), t, s1);
    Next(at, via, s1, t, s2);
    Next(at, via, s2, t, s');
  }

  /** A thread gives its only read lock back. */
  lemma GivesReadLock(at: PC, via: State, s: State, t: nat) returns (s': State)
    requires Reached(at, via, s) && s.wrlock == FREE && t < |s.ts| && s.ts[t] == Thread(Idle, 1)
    ensures Reached(at, via, s') && s' == s.(rdcnt := s.rdcnt - 1, ts := s.ts[t := Thread(Idle, 0)])
  {
    var s2 := ComesToDecrement(at, via, s, t);
    var s3 := Move(s, t, UFree).(wrlock := t, rdcnt := s.rdcnt - 1);
    var s4 := Move(s, t, UPop).(rdcnt := s.rdcnt - 1);
    s' := Stack(s, t, Idle, 0).(rdcnt := s.rdcnt - 1);
    Next(at, via, s2, t, s3);
    Next(at, via, s3, t, s4);
    Next(at, via, s4, t, s');
  }

  lemma ComesToDecrement(at: PC, via: State, s: State, t: nat) returns (s': State)
    requires Reached(at, via, s) && s.wrlock == FREE && t < |s.ts| && s.ts[t] == Thread(Idle, 1)
    ensures Reached(at, via, s') && s' == Move(s, t, UDec).(wrlock := t)
  {
    var s1 := Move(s, t, UGet);
    s' := Move(s, t, UDec).(wrlock := t);
    Next(at, via, s, t, s1);
    Next(at, via, s1, t, s');
  }

  /** A thread takes the write lock when no readers are counted. */
  lemma TakesWriteLock(at: PC, via: State, s: State, t: nat) returns (s': State)
    requires Reached(at, via, s) && s.wrlock == FREE && s.rdcnt == 0 && t < |s.ts| && s.ts[t] == Thread(Idle, 0)
    ensures Reached(at, via, s') && s' == s.(wrlock := t, ts := s.ts[t := Thread(Writing, 0)])
  {
    var s1 := Move(s, t, WGet);
    var s2 := Move(s, t, WCheck).(wrlock := t);
    s' := Move(s, t, Writing).(wrlock := t);
    Next(at, via, s, t, s1);
    Next(at, via, s1, t, s2);
    Next(at, via, s2, t, s');
  }

  /** A writer finds readers and starts to wait. */
  lemma StartsWaiting(at: PC, via: State, s: State, t: nat) returns (s': State)
    requires Reached(at, via, s) && s.wrlock == FREE && s.rdcnt > 0 && t < |s.ts| && s.ts[t] == Thread(Idle, 0)
    ensures Reached(at, via, s') && s' == Move(s, t, WWait).(reqcnt := s.reqcnt + 1)
  {
    var s3 := FindsReaders(at, via, s, t);
    var s4 := Move(s, t, WFree).(wrlock := t, reqcnt := s.reqcnt + 1);
    s' := Move(s, t, WWait).(reqcnt := s.reqcnt + 1);
    Next(at, via, s3, t, s4);
    Next(at, via, s4, t, s');
  }

  lemma FindsReaders(at: PC, via: State, s: State, t: nat) returns (s': State)
    requires Reached(at, via, s) && s.wrlock == FREE && s.rdcnt > 0 && t < |s.ts| && s.ts[t] == Thread(Idle, 0)
    ensures Reached(at, via, s') && s' == Move(s, t, WLoop).(wrlock := t)
  {
    var s1 := Move(s, t, WGet);
    var s2 := Move(s, t, WCheck).(wrlock := t);
    s' := Move(s, t, WLoop).(wrlock := t);
    Next(at, via, s, t, s1);
    Next(at, via, s1, t, s2);
    Next(at, via, s2, t, s');
  }

  /** The readers have gone: the waiting writer gets the lock. */
  lemma EndsWaiting(at: PC, via: State, s: State, t: nat) returns (s': State)
    requires Reached(at, via, s) && s.wrlock == FREE && s.rdcnt == 0 && t < |s.ts| && s.ts[t] == Thread(WWait, 0)
    ensures Reached(at, via, s') && s' == Move(s, t, Writing).(wrlock := t, reqcnt := s.reqcnt - 1)
  {
    var s1 := Move(s, t, WBack).(wrlock := t);
    var s2 := Move(s, t, WLoop).(wrlock := t, reqcnt := s.reqcnt - 1);
    s' := Move(s, t, Writing).(wrlock := t, reqcnt := s.reqcnt - 1);
    Next(at, via, s, t, s1);
    Next(at, via, s1, t, s2);
    Next(at, via, s2, t, s');
  }

  /** A reader finds a waiting writer and starts to wait. */
  lemma HoldsBack(at: PC, via: State, s: State, t: nat) returns (s': State)
    requires Reached(at, via, s) && s.wrlock == FREE && s.reqcnt != 0 && t < |s.ts| && s.ts[t] == Thread(Idle, 0)
    ensures Reached(at, via, s') && s' == Move(s, t, RSpin)
  {
    var s1 := Move(s, t, RGet);
    var s2 := Move(s, t, RCheck).(wrlock := t);
    s' := Move(s, t, RSpin);
    Next(at, via, s, t, s1);
    Next(at, via, s1, t, s2);
    Next(at, via, s2, t, s');
  }

  /** No writer waits any more: the waiting reader gets the read lock. */
  lemma GoesOnReading(at: PC, via: State, s: State, t: nat) returns (s': State)
    requires Reached(at, via, s) && s.wrlock == FREE && s.reqcnt == 0 && t < |s.ts| && s.ts[t] == Thread(RSpin, 0)
    ensures Reached(at, via, s') && s' == s.(rdcnt := s.rdcnt + 1, ts := s.ts[t := Thread(Idle, 1)])
  {
    var s1 := Move(s, t, RAgain).(wrlock := t);
    Next(at, via, s, t, s1);
    Next(at, via, s1, t, Move(s, t, RPush).(wrlock := t));
    s' := Pushes(at, via, s, t);
  }

  // ----- a run in which everybody gets in -----

  function Three(wrlock: int, rdcnt: int, reqcnt: int, a: Thread, b: Thread, c: Thread): State {
    State(wrlock, rdcnt, reqcnt, [a, b, c])
  }

  const START: State := Three(FREE, 0, 0, Thread(Idle, 0), Thread(Idle, 0), Thread(Idle, 0))

  /** No misuse takes a thread to Idle. */
  lemma NoMisuse(r: Trail)
    requires OnlyAt(r, Idle)
    ensures Proper(r.states, r.who)
  {
    forall i | 0 <= i < |r.who|
      ensures !Misuse(r.states[i], r.who[i], r.states[i + 1])
    {
      assert Step(r.states[i], r.who[i], r.states[i + 1]);
    }
  }

  /** A run without misuse passes through `via` and ends in s. */
  ghost predicate ProperRun(r: Trail, via: State, s: State) {
    Run(r.states, r.who) && Proper(r.states, r.who) && via in r.states && Last(r) == s
  }

  lemma RunOf(via: State, s: State) returns (r: Trail)
    requires Reached(Idle, via, s)
    ensures ProperRun(r, via, s)
  {
    r :| Leads(r, Idle, via, s);
    NoMisuse(r);
  }

  /** Thread 0 reads, 1 wants to write and waits, 2 wants to read and waits behind it. */
  lemma EverybodyWaits() returns (s: State)
    ensures Reached(Idle, START, s) && s == Three(FREE, 1, 1, Thread(Idle, 1), Thread(WWait, 0), Thread(RSpin, 0))
  {
    Start(Idle, START);
    s := TakesReadLock(Idle, START, START, 0);
    s := StartsWaiting(Idle, START, s, 1);
    s := HoldsBack(Idle, START, s, 2);
  }

  /** From there 0 unlocks, and the writer that had to wait writes. */
  lemma WriterGetsIn(via: State, s: State) returns (s': State)
    requires Reached(Idle, via, s) && s == Three(FREE, 1, 1, Thread(Idle, 1), Thread(WWait, 0), Thread(RSpin, 0))
    ensures Reached(Idle, via, s') && s' == Three(1, 0, 0, Thread(Idle, 0), Thread(Writing, 0), Thread(RSpin, 0))
  {
    s' := GivesReadLock(Idle, via, s, 0);
    s' := EndsWaiting(Idle, via, s', 1);
  }

  /** It unlocks, and the reader that had to wait reads. */
  lemma ReaderGetsIn(via: State, s: State) returns (s': State)
    requires Reached(Idle, via, s) && s == Three(1, 0, 0, Thread(Idle, 0), Thread(Writing, 0), Thread(RSpin, 0))
    ensures Reached(Idle, via, s') && s' == Three(FREE, 1, 0, Thread(Idle, 0), Thread(Idle, 0), Thread(Idle, 1))
  {
    s' := Move(s, 1, Idle).(wrlock := FREE);
    Next(Idle, via, s, 1, s');
    s' := GoesOnReading(Idle, via, s', 2);
  }

  /** A run without misuse in which a writer waits for a reader and then writes. */
  lemma WriterWaitsOut() returns (r: Trail)
    ensures ProperRun(r, Three(FREE, 1, 1, Thread(Idle, 1), Thread(WWait, 0), Thread(RSpin, 0)),
                      Three(1, 0, 0, Thread(Idle, 0), Thread(Writing, 0), Thread(RSpin, 0)))
  {
    var via := EverybodyWaits();
    Here(Idle, START, via);
    var s := WriterGetsIn(via, via);
    r := RunOf(via, s);
  }

  /** And one in which a reader waits for a writer and then reads. */
  lemma ReaderWaitsOut() returns (r: Trail)
    ensures ProperRun(r, Three(1, 0, 0, Thread(Idle, 0), Thread(Writing, 0), Thread(RSpin, 0)),
                      Three(FREE, 1, 0, Thread(Idle, 0), Thread(Idle, 0), Thread(Idle, 1)))
  {
    var s := EverybodyWaits();
    var via := WriterGetsIn(START, s);
    Here(Idle, START, via);
    var end := ReaderGetsIn(via, via);
    r := RunOf(via, end);
  }

  // ----- what the three misuses do -----

  /** Asking for the write lock while reading takes the reader out of rdlock_cnt but
      leaves it reading: the next writer gets in beside it. */
  lemma UpgradeBreaksExclusion() returns (r: Trail)
    ensures OnlyAt(r, WDeny)
    ensures |Last(r).ts| == 3 && Reads(Last(r).ts[0]) && Last(r).ts[1].pc == Writing
  {
    Start(WDeny, START);
    var s := TakesReadLock(WDeny, START, START, 0);
    s := AsksWhileReading(START, s, 0);
    s := TakesWriteLock(WDeny, START, s, 1);
    r :| Leads(r, WDeny, START, s);
  }

  /** A single reader asks for the write lock, is refused and no longer counted. */
  lemma AsksWhileReading(via: State, s: State, t: nat) returns (s': State)
    requires Reached(WDeny, via, s) && s.wrlock == FREE && s.rdcnt == 1 && t < |s.ts| && s.ts[t] == Thread(Idle, 1)
    ensures Reached(WDeny, via, s') && s' == s.(rdcnt := 0)
  {
    var s1 := Move(s, t, WGet);
    var s2 := Move(s, t, WCheck).(wrlock := t);
    var s3 := Move(s, t, WDeny).(wrlock := t, rdcnt := 0);
    s' := Move(s, t, Idle).(rdcnt := 0);
    Next(WDeny, via, s, t, s1);
    Next(WDeny, via, s1, t, s2);
    Next(WDeny, via, s2, t, s3);
    Next(WDeny, via, s3, t, s');
    assert s.ts[t := Thread(Idle, 1)] == s.ts;
  }

  /** Unlocking what was never read-locked hides another thread's read lock until
      the error path puts the count right: a writer gets in meanwhile. */
  lemma StrayUnlockBreaksExclusion() returns (r: Trail)
    ensures OnlyAt(r, UGet)
    ensures |Last(r).ts| == 3 && Reads(Last(r).ts[0]) && Last(r).ts[2].pc == Writing
  {
    Start(UGet, START);
    var s := TakesReadLock(UGet, START, START, 0);
    s := StrayUnlock(START, s, 1);
    s := TakesWriteLock(UGet, START, s, 2);
    r :| Leads(r, UGet, START, s);
  }

  /** The stray unlock, up to where it finds nothing on the lock stack. */
  lemma StrayUnlock(via: State, s: State, t: nat) returns (s': State)
    requires Reached(UGet, via, s) && s.wrlock == FREE && t < |s.ts| && s.ts[t] == Thread(Idle, 0)
    ensures Reached(UGet, via, s') && s' == Move(s, t, UPop).(rdcnt := s.rdcnt - 1)
  {
    var s1 := Move(s, t, UGet);
    var s2 := Move(s, t, UDec).(wrlock := t);
    var s3 := Move(s, t, UFree).(wrlock := t, rdcnt := s.rdcnt - 1);
    s' := Move(s, t, UPop).(rdcnt := s.rdcnt - 1);
    Next(UGet, via, s, t, s1);
    Next(UGet, via, s1, t, s2);
    Next(UGet, via, s2, t, s3);
    Next(UGet, via, s3, t, s');
  }

  /** write_unlock by a thread that does not write gives another thread's flag back:
      the next writer gets in beside the first. */
  lemma StrayWriteUnlockBreaksExclusion() returns (r: Trail)
    ensures OnlyAt(r, VFree)
    ensures |Last(r).ts| == 3 && Last(r).ts[0].pc == Writing && Last(r).ts[2].pc == Writing
  {
    Start(VFree, START);
    var s := TakesWriteLock(VFree, START, START, 0);
    var s1 := Move(s, 1, VFree);
    Next(VFree, START, s, 1, s1);
    Next(VFree, START, s1, 1, Move(s, 1, Idle).(wrlock := FREE));
    var s2 := TakesWriteLock(VFree, START, Move(s, 1, Idle).(wrlock := FREE), 2);
    r :| Leads(r, VFree, START, s2);
  }
}
