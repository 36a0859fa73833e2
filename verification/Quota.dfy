/** inc_cntr_map: a shared object count and size with a checked reservation that adds first, looks at
    the result and takes its addition back when over the limit.  Each atomic operation is one step; any
    number of calls interleave. */
module Quota {

  datatype Pc =
    | Idle
    | Counted                // num_obj raised
    | Added(total: int)      // current_size raised; what the addition returned
    | Returning              // num_obj taken back, current_size not yet
    | Done(ret: nat)

  /** One call: `bytes` is the block count times the block size, negative for a release. */
  datatype Call = Call(objs: int, bytes: int, check: bool, pc: Pc)

  datatype State = State(limit: nat, numObj: int, size: int, calls: seq<Call>)

  /** The branch that refuses. */
  predicate Refuses(limit: nat, c: Call, total: int) {
    limit != 0 && total > limit && c.check && c.bytes > 0
  }

  function Answer(limit: nat, c: Call, total: int): nat {
    if limit != 0 && total > limit && (!c.check || c.bytes > 0) then 0 else 1
  }

  function Moved(s: State, i: nat, pc: Pc): State
    requires i < |s.calls|
  {
    s.(calls := s.calls[i := s.calls[i].(pc := pc)])
  }

  predicate Step(s: State, s': State, i: nat) {
    && i < |s.calls|
    && var c := s.calls[i];
       match c.pc
       case Idle => s' == Moved(s, i, Counted).(numObj := s.numObj + c.objs)
       case Counted => s' == Moved(s, i, Added(s.size + c.bytes)).(size := s.size + c.bytes)
       case Added(total) =>
         if Refuses(s.limit, c, total) then s' == Moved(s, i, Returning).(numObj := s.numObj - c.objs)
         else s' == Moved(s, i, Done(Answer(s.limit, c, total)))
       case Returning => s' == Moved(s, i, Done(0)).(size := s.size - c.bytes)
       case Done(_) => false
  }

  // ------------------------------------------------------------------- accounting

  function Sum(cs: seq<Call>, f: Call -> int): int {
    if cs == [] then 0 else f(cs[0]) + Sum(cs[1..], f)
  }

  lemma {:induction false} SumUpdate(cs: seq<Call>, i: nat, c: Call, f: Call -> int)
    requires i < |cs|
    ensures Sum(cs[i := c], f) == Sum(cs, f) - f(cs[i]) + f(c)
  {
    if i == 0 {
      assert cs[0 := c][1..] == cs[1..];
    } else {
      assert cs[i := c][1..] == cs[1..][i - 1 := c];
      SumUpdate(cs[1..], i - 1, c, f);
    }
  }

  lemma {:induction false} SumAtMost(cs: seq<Call>, f: Call -> int, g: Call -> int)
    requires forall c | c in cs :: f(c) <= g(c)
    ensures Sum(cs, f) <= Sum(cs, g)
  {
    if cs != [] { SumAtMost(cs[1..], f, g); }
  }

  lemma {:induction false} SumSame(cs: seq<Call>, f: Call -> int, g: Call -> int)
    requires forall c | c in cs :: f(c) == g(c)
    ensures Sum(cs, f) == Sum(cs, g)
  {
    if cs != [] { SumSame(cs[1..], f, g); }
  }

  /** Bytes a call has in current_size, objects it has in num_obj. */
  function Bytes(c: Call): int {
    match c.pc
    case Added(_) => c.bytes
    case Returning => c.bytes
    case Done(ret) => if c.check && ret == 0 then 0 else c.bytes
    case _ => 0
  }

  function Objs(c: Call): int {
    match c.pc
    case Counted => c.objs
    case Added(_) => c.objs
    case Done(ret) => if c.check && ret == 0 then 0 else c.objs
    case _ => 0
  }

  /** Bytes granted: added and not to be taken back. */
  function Granted(limit: nat): Call -> int {
    (c: Call) =>
      match c.pc
      case Added(total) => if Refuses(limit, c, total) then 0 else c.bytes
      case Done(ret) => if c.check && ret == 0 then 0 else c.bytes
      case _ => 0
  }

  /** Bytes added without asking for the check. */
  function Unchecked(c: Call): int {
    if (c.pc.Added? || c.pc.Done?) && !c.check && c.bytes > 0 then c.bytes else 0
  }

  function Pending(s: State): int { Sum(s.calls, Bytes) - Sum(s.calls, Granted(s.limit)) }

  ghost predicate Start(s: State) { forall c | c in s.calls :: c.pc.Idle? }

  ghost predicate Run(states: seq<State>, who: seq<nat>) {
    && |states| == |who| + 1 && Start(states[0])
    && forall i | 0 <= i < |who| :: Step(states[i], states[i + 1], who[i])
  }

  /** current_size and num_obj are what they were plus what each call has in them at this moment; a call
      is taken back only if checked and positive. */
  ghost predicate Inv(s: State, s0: State) {
    && s.limit == s0.limit
    && s.size == s0.size + Sum(s.calls, Bytes)
    && s.numObj == s0.numObj + Sum(s.calls, Objs)
    && forall c | c in s.calls :: CallOk(s.limit, c)
  }

  predicate CallOk(limit: nat, c: Call) {
    match c.pc
    case Returning => c.check && c.bytes > 0 && limit != 0
    case Done(ret) => ret <= 1 && (c.check && ret == 0 ==> c.bytes > 0 && limit != 0)
    case _ => true
  }

  /** A step changes one call, and the two counters by what that call has in them. */
  lemma StepCall(s: State, s': State, i: nat)
    requires Step(s, s', i) && CallOk(s.limit, s.calls[i])
    ensures i < |s.calls| == |s'.calls| && s'.limit == s.limit && s'.calls == s.calls[i := s'.calls[i]]
    ensures s'.size == s.size - Bytes(s.calls[i]) + Bytes(s'.calls[i])
    ensures s'.numObj == s.numObj - Objs(s.calls[i]) + Objs(s'.calls[i])
    ensures CallOk(s.limit, s'.calls[i])
  {}

  lemma StepInv(s: State, s': State, i: nat, s0: State)
    requires Inv(s, s0) && Step(s, s', i)
    ensures Inv(s', s0)
  {
    assert s.calls[i] in s.calls;
    StepCall(s, s', i);
    hide Step, Sum, CallOk, Bytes, Objs;
    var c' := s'.calls[i];
    SumUpdate(s.calls, i, c', Bytes);
    SumUpdate(s.calls, i, c', Objs);
    assert s'.size == s0.size + Sum(s'.calls, Bytes);
    assert s'.numObj == s0.numObj + Sum(s'.calls, Objs);
    forall c | c in s'.calls ensures CallOk(s'.limit, c) {
      var k :| 0 <= k < |s'.calls| && s'.calls[k] == c;
      assert s.calls[i] in s.calls && s.calls[k] in s.calls;
    }
  }

  lemma {:induction false} SumIdle(cs: seq<Call>, f: Call -> int)
    requires forall c | c in cs :: f(c) == 0
    ensures Sum(cs, f) == 0
  {
    if cs != [] { SumIdle(cs[1..], f); }
  }

  lemma {:induction false} RunInv(states: seq<State>, who: seq<nat>, n: nat)
    requires Run(states, who) && n < |states|
    ensures Inv(states[n], states[0])
  {
    if n == 0 {
      SumIdle(states[0].calls, Bytes);
      SumIdle(states[0].calls, Objs);
    } else {
      RunInv(states, who, n - 1);
      assert Step(states[n - 1], states[n], who[n - 1]);
      StepInv(states[n - 1], states[n], who[n - 1], states[0]);
    }
  }

  // ------------------------------------------------------------------- main results

  lemma PendingNonNegative(s: State, s0: State)
    requires Inv(s, s0)
    ensures Pending(s) >= 0
  {
    forall c | c in s.calls ensures Granted(s.limit)(c) <= Bytes(c) {
      assert CallOk(s.limit, c);
    }
    SumAtMost(s.calls, Granted(s.limit), Bytes);
  }

  /** What was granted, counted from the container's size at the start, stays within the limit but for
      what was added without the check. */
  ghost predicate WithinLimit(s: State, s0: State) {
    s0.size + Sum(s.calls, Granted(s.limit)) <= s.limit + Sum(s.calls, Unchecked)
  }

  lemma StepWithinLimit(s: State, s': State, i: nat, s0: State)
    requires Inv(s, s0) && Step(s, s', i) && s.limit != 0 && WithinLimit(s, s0)
    ensures WithinLimit(s', s0)
  {
    var c, c' := s.calls[i], s'.calls[i];
    StepInv(s, s', i, s0);
    PendingNonNegative(s', s0);
    SumUpdate(s.calls, i, c', Granted(s.limit));
    SumUpdate(s.calls, i, c', Unchecked);
    assert s'.calls == s.calls[i := c'];
    assert CallOk(s.limit, c);
    hide Inv, Sum;
    if c.pc.Counted? && c.check && c.bytes > 0 && !Refuses(s.limit, c, s.size + c.bytes) {
      UncheckedNonNegative(s'.calls);
      assert s'.size == s0.size + Sum(s'.calls, Bytes) by { assert Inv(s', s0); }
    }
  }

  lemma UncheckedNonNegative(cs: seq<Call>)
    ensures Sum(cs, Unchecked) >= 0
  {
    if cs != [] { UncheckedNonNegative(cs[1..]); }
  }

  lemma {:induction false} RunWithinLimit(states: seq<State>, who: seq<nat>, n: nat)
    requires Run(states, who) && n < |states|
    requires states[0].limit != 0 && states[0].size <= states[0].limit
    ensures WithinLimit(states[n], states[0])
  {
    if n == 0 {
      SumIdle(states[0].calls, Granted(states[0].limit));
      SumIdle(states[0].calls, Unchecked);
    } else {
      RunInv(states, who, n - 1);
      RunWithinLimit(states, who, n - 1);
      assert Step(states[n - 1], states[n], who[n - 1]);
      StepWithinLimit(states[n - 1], states[n], who[n - 1], states[0]);
    }
  }

  /** Where every increase asks for the check, granted bytes never total more than the limit. */
  lemma NeverOverGranted(states: seq<State>, who: seq<nat>, n: nat)
    requires Run(states, who) && n < |states|
    requires states[0].limit != 0 && states[0].size <= states[0].limit
    requires forall c | c in states[n].calls :: c.bytes > 0 ==> c.check
    ensures states[0].size + Sum(states[n].calls, Granted(states[n].limit)) <= states[0].limit
  {
    RunInv(states, who, n);
    RunWithinLimit(states, who, n);
    SumIdle(states[n].calls, Unchecked);
  }

  /** current_size is what is granted plus what is waiting to be taken back, never less than granted. */
  lemma SizeIsGrantedAndPending(states: seq<State>, who: seq<nat>, n: nat)
    requires Run(states, who) && n < |states|
    ensures states[n].size == states[0].size + Sum(states[n].calls, Granted(states[n].limit)) + Pending(states[n])
    ensures Pending(states[n]) >= 0
  {
    RunInv(states, who, n);
    PendingNonNegative(states[n], states[0]);
  }

  /** When every call is done, exactly the granted calls are in the counters: a refused call leaves
      nothing behind. */
  lemma Quiescent(states: seq<State>, who: seq<nat>, n: nat)
    requires Run(states, who) && n < |states|
    requires forall c | c in states[n].calls :: c.pc.Done?
    ensures states[n].size == states[0].size + Sum(states[n].calls, (c: Call) => if c.pc == Done(0) && c.check then 0 else c.bytes)
    ensures states[n].numObj == states[0].numObj + Sum(states[n].calls, (c: Call) => if c.pc == Done(0) && c.check then 0 else c.objs)
  {
    RunInv(states, who, n);
    SumSame(states[n].calls, Bytes, (c: Call) => if c.pc == Done(0) && c.check then 0 else c.bytes);
    SumSame(states[n].calls, Objs, (c: Call) => if c.pc == Done(0) && c.check then 0 else c.objs);
  }

  /** A checked reservation is refused exactly when it does not fit beside what is granted and what other
      refused calls have not yet taken back. */
  lemma RefusedIff(states: seq<State>, who: seq<nat>, n: nat)
    requires Run(states, who) && n < |who| && states[n].limit != 0
    requires who[n] < |states[n].calls| && states[n].calls[who[n]].pc.Counted?
    requires states[n].calls[who[n]].check && states[n].calls[who[n]].bytes > 0
    ensures var s, c' := states[n], states[n + 1].calls[who[n]];
            c'.pc.Added? && (Refuses(s.limit, c', c'.pc.total) <==>
              states[0].size + Sum(s.calls, Granted(s.limit)) + Pending(s) + c'.bytes > s.limit)
  {
    assert Step(states[n], states[n + 1], who[n]);
    SizeIsGrantedAndPending(states, who, n);
    hide Run, Sum, Pending;
  }

  // ------------------------------------------------------------------- what a call answers

  /** Call i after state m, in which it adds its bytes: what it makes of the total decides all that follows. */
  ghost predicate Settled(s: State, c: Call, c0: Call) {
    var over := s.limit != 0 && s.size + c.bytes > s.limit;
    && c0 == c.(pc := Counted)
    && match c.pc
       case Added(total) => total == s.size + c.bytes
       case Returning => over && c.check && c.bytes > 0
       case Done(ret) => ret <= 1 && (ret == 0 <==> over && (!c.check || c.bytes > 0))
       case _ => false
  }

  lemma StepSettles(s: State, s': State, i: nat, m: State, c0: Call)
    requires Step(s, s', i) && m.limit == s.limit && Settled(m, s.calls[i], c0)
    ensures s'.limit == s.limit && |s'.calls| == |s.calls| && Settled(m, s'.calls[i], c0)
  {}

  lemma StepAdds(s: State, s': State, i: nat)
    requires Step(s, s', i) && (s'.calls[i].pc.Added? || s'.calls[i].pc.Returning? || s'.calls[i].pc.Done?)
    requires !(s.calls[i].pc.Added? || s.calls[i].pc.Returning? || s.calls[i].pc.Done?)
    ensures Settled(s, s'.calls[i], s.calls[i])
  {}

  lemma StepOthers(s: State, s': State, i: nat, k: nat)
    requires Step(s, s', i) && k < |s.calls| && k != i
    ensures s'.limit == s.limit && |s'.calls| == |s.calls| && s'.calls[k] == s.calls[k]
  {}

  /** A call that is through answers 0 if and only if the container has a limit, its size with the call's bytes
      added was over the limit, and the call did not ask for the check or asked for more space; a refused
      reservation that asked for the check has been taken back, any other addition stays. */
  lemma {:induction false} AnsweredIff(states: seq<State>, who: seq<nat>, n: nat, i: nat) returns (m: nat)
    requires Run(states, who) && n < |states| && i < |states[n].calls|
    requires var pc := states[n].calls[i].pc; pc.Added? || pc.Returning? || pc.Done?
    ensures m < n && who[m] == i < |states[m].calls| && states[m].limit == states[n].limit
    ensures Settled(states[m], states[n].calls[i], states[m].calls[i])
  {
    assert n > 0;
    var s, s' := states[n - 1], states[n];
    assert Step(s, s', who[n - 1]);
    if who[n - 1] != i {
      assert |s'.calls| == |s.calls|;
      StepOthers(s, s', who[n - 1], i);
      m := AnsweredIff(states, who, n - 1, i);
    } else if s.calls[i].pc.Added? || s.calls[i].pc.Returning? || s.calls[i].pc.Done? {
      m := AnsweredIff(states, who, n - 1, i);
      StepSettles(s, s', i, states[m], states[m].calls[i]);
    } else {
      m := n - 1;
      StepAdds(s, s', i);
    }
  }

  /** So a reservation that would fit can be refused: limit 10, one call asks for 20 and one for 5. */
  function Unlucky(): seq<State> {
    var a, b := Call(1, 20, true, Idle), Call(1, 5, true, Idle);
    var a1, a2, b1 := a.(pc := Counted), a.(pc := Added(20)), b.(pc := Counted);
    [ State(10, 0, 0, [a, b]), State(10, 1, 0, [a1, b]), State(10, 1, 20, [a2, b]),
      State(10, 2, 20, [a2, b1]), State(10, 2, 25, [a2, b.(pc := Added(25))]),
      State(10, 1, 25, [a2, b.(pc := Returning)]), State(10, 1, 20, [a2, b.(pc := Done(0))]) ]
  }

  lemma UnluckyRuns()
    ensures Run(Unlucky(), [0, 0, 1, 1, 1, 1])
  {
    var u := Unlucky();
    assert Step(u[0], u[1], 0) && Step(u[1], u[2], 0);
    assert Step(u[2], u[3], 1) && Step(u[3], u[4], 1);
    assert Step(u[4], u[5], 1) && Step(u[5], u[6], 1);
    hide Step;
  }

  lemma SpuriousRefusal()
    ensures Run(Unlucky(), [0, 0, 1, 1, 1, 1])
    ensures var s := Unlucky()[6]; s.calls[1].pc == Done(0) && Sum(s.calls, Granted(10)) + s.calls[1].bytes <= s.limit
  {
    UnluckyRuns();
    hide Run;
    var s := Unlucky()[6];
    assert Sum(s.calls[1..], Granted(10)) == 0;
    assert Sum(s.calls, Granted(10)) == 0;
  }
}
