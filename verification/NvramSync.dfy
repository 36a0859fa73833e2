/** Concurrent syncs of one NVRAM buffer: nvr_sync_buf_internal run by any number of threads
    while others append, with the split at a block boundary and the restart for the rest.

    Offsets only; what the blocks hold is the business of module Nvram. */
module NvramSync {
  import opened Nvram

  /** Where a thread is.  `want` is the code's `off`, which a split replaces; `orig` is the
      offset the caller asked for.  `split` is 0, 1 or 2 like the code's `flag`. */
  datatype Thread =
    | Idle
    | Checking(want: nat, orig: nat, aligned: bool, split: nat)
    | Syncing(want: nat, orig: nat, aligned: bool, split: nat)
    | Writing(want: nat, orig: nat, aligned: bool, split: nat, tmp: nat)
    | Returned(result: nat, orig: nat, aligned: bool, split: nat)
  {
    predicate Inside() { Syncing? || Writing? }
  }

  /** nso_off, nso_syncoff, nso_insync, and the threads. */
  datatype State = State(blk: nat, off: nat, syncoff: nat, insync: bool, threads: map<nat, Thread>)

  /** The condition under which a sync stops at the last block boundary. */
  predicate Splits(blk: nat, syncoff: nat, tmp: nat)
    requires blk > 0
  {
    tmp % blk != 0 &&
    (if syncoff % blk == 0 then tmp > syncoff + blk else tmp > RoundUp(syncoff, blk))
  }

  /** That is: the data ends inside a block, and a block boundary lies beyond what is synced. */
  lemma SplitsIff(blk: nat, syncoff: nat, tmp: nat)
    requires blk > 0
    ensures Splits(blk, syncoff, tmp) <==> tmp % blk != 0 && tmp / blk * blk > syncoff
  {
    if tmp % blk != 0 { SplitIff(blk, syncoff, tmp); }
    hide RoundUp;
  }

  // --------------------------------------------------------------------- steps

  /** Someone appends n bytes (with headers). */
  function Appended(s: State, n: nat): State { s.(off := s.off + n) }

  /** A call with an offset that has been appended. */
  ghost predicate Call(s: State, s': State, t: nat, off: nat, aligned: bool) {
    && (t in s.threads ==> s.threads[t].Idle? || s.threads[t].Returned?)
    && 0 < off <= s.off && s' == s.(threads := s.threads[t := Checking(off, off, aligned, 0)])
  }

  /** The offset is synced already. */
  ghost predicate Saved(s: State, s': State, t: nat) {
    && t in s.threads && s.threads[t].Checking? && s.syncoff >= s.threads[t].want
    && var x := s.threads[t];
       s' == s.(threads := s.threads[t := Returned(s.syncoff, x.orig, x.aligned, x.split)])
  }

  /** No sync is in progress and the offset is not synced: become the syncing thread. */
  ghost predicate Enter(s: State, s': State, t: nat) {
    && t in s.threads && s.threads[t].Checking? && !s.insync && s.syncoff < s.threads[t].want
    && var x := s.threads[t];
       s' == s.(insync := true, threads := s.threads[t := Syncing(x.want, x.orig, x.aligned, x.split)])
  }

  /** Read nso_off once and decide whether to split. */
  ghost predicate Capture(s: State, s': State, t: nat)
    requires s.blk > 0
  {
    && t in s.threads && s.threads[t].Syncing?
    && var x := s.threads[t];
       if x.split == 0 && Splits(s.blk, s.syncoff, s.off) then
         var tmp := s.off / s.blk * s.blk;
         s' == s.(threads := s.threads[t := Writing(tmp + 1, x.orig, x.aligned, 1, tmp)])
       else
         s' == s.(threads := s.threads[t := Writing(x.want, x.orig, x.aligned, x.split, s.off)])
  }

  /** The device write is done: publish the sync offset; restart for the residue of a split. */
  ghost predicate Finish(s: State, s': State, t: nat) {
    && t in s.threads && s.threads[t].Writing?
    && var x := s.threads[t];
       s' == s.(syncoff := x.tmp, insync := false,
                threads := s.threads[t := if x.split == 1 && !x.aligned
                                          then Checking(x.want, x.orig, x.aligned, 2)
                                          else Returned(x.tmp, x.orig, x.aligned, x.split)])
  }

  ghost predicate Step(s: State, s': State)
    requires s.blk > 0
  {
    || (exists n: nat :: s' == Appended(s, n))
    || (exists t: nat, off: nat, aligned: bool :: Call(s, s', t, off, aligned))
    || (exists t: nat :: Saved(s, s', t))
    || (exists t: nat :: Enter(s, s', t))
    || (exists t: nat :: Capture(s, s', t))
    || (exists t: nat :: Finish(s, s', t))
  }

  // ----------------------------------------------------------------- invariant

  /** A thread that still wants an offset: meeting the want means meeting the original. */
  ghost predicate WantOk(s: State, x: Thread)
    requires s.blk > 0 && (x.Checking? || x.Syncing?)
  {
    && x.orig <= s.off && x.want <= s.off
    && (x.split == 0 || x.split == 2)
    && (x.split == 0 ==> x.want == x.orig)
    && (x.split == 2 ==>
          && x.want > 0 && (x.want - 1) % s.blk == 0 && x.orig < x.want - 1 + s.blk && !x.aligned
          && (s.syncoff >= x.want ==> s.syncoff >= x.orig))
  }

  /** A thread writing: it moves the sync offset forward, and no waiting thread is misled. */
  ghost predicate WriteOk(s: State, x: Thread)
    requires s.blk > 0 && x.Writing?
  {
    && s.syncoff < x.tmp <= s.off && x.orig <= s.off && x.split <= 2
    && (x.split == 1 ==>
          x.tmp % s.blk == 0 && x.want == x.tmp + 1 && x.want <= s.off && x.orig < x.tmp + s.blk)
    && (x.split != 1 ==> x.tmp >= x.orig)
    && forall t | t in s.threads && s.threads[t].Checking? && s.threads[t].split == 2 ::
         x.tmp >= s.threads[t].want ==> x.tmp >= s.threads[t].orig
  }

  ghost predicate ThreadOk(s: State, x: Thread)
    requires s.blk > 0
  {
    match x
    case Idle => true
    case Checking(_, _, _, _) => WantOk(s, x)
    case Syncing(want, _, _, _) => WantOk(s, x) && s.syncoff < want
    case Writing(_, _, _, _, _) => WriteOk(s, x)
    case Returned(result, orig, aligned, split) =>
      result <= s.syncoff && split <= 2 && (!aligned ==> result >= orig)
  }

  ghost predicate Inv(s: State) {
    && s.blk > 0 && s.syncoff <= s.off
    && (forall t | t in s.threads :: ThreadOk(s, s.threads[t]))
    && (forall t, u | t in s.threads && u in s.threads && s.threads[t].Inside() && s.threads[u].Inside() :: t == u)
    && (s.insync <==> exists t :: t in s.threads && s.threads[t].Inside())
  }

  ghost predicate Start(s: State) {
    s.blk > 0 && s.off == 0 && s.syncoff == 0 && !s.insync && forall t | t in s.threads :: s.threads[t].Idle?
  }

  lemma StartInv(s: State)
    requires Start(s)
    ensures Inv(s)
  {}

  // --------------------------------------------------- every step keeps it

  lemma AppendedInv(s: State, n: nat)
    requires Inv(s)
    ensures Inv(Appended(s, n))
  {
    var s' := Appended(s, n);
    forall t | t in s'.threads ensures ThreadOk(s', s'.threads[t]) { assert ThreadOk(s, s.threads[t]); }
  }

  lemma CallInv(s: State, s': State, t: nat, off: nat, aligned: bool)
    requires Inv(s) && Call(s, s', t, off, aligned)
    ensures Inv(s')
  {
    forall u | u in s'.threads ensures ThreadOk(s', s'.threads[u]) {
      if u != t { OthersOk(s, s', t, u); }
    }
    InsideKept(s, s', t);
  }

  lemma SavedInv(s: State, s': State, t: nat)
    requires Inv(s) && Saved(s, s', t)
    ensures Inv(s')
  {
    assert ThreadOk(s, s.threads[t]);
    forall u | u in s'.threads ensures ThreadOk(s', s'.threads[u]) {
      if u != t { OthersOk(s, s', t, u); }
    }
    InsideKept(s, s', t);
  }

  /** Threads other than the mover, when offsets stand still and no waiter joins. */
  lemma OthersOk(s: State, s': State, t: nat, u: nat)
    requires Inv(s) && s'.blk == s.blk && s'.off == s.off && s'.syncoff == s.syncoff
    requires u != t && u in s.threads && u in s'.threads && s'.threads[u] == s.threads[u]
    requires forall v | v in s'.threads && v != t :: v in s.threads && s'.threads[v] == s.threads[v]
    requires t in s'.threads && !(s'.threads[t].Checking? && s'.threads[t].split == 2)
    ensures ThreadOk(s', s'.threads[u])
  {
    assert ThreadOk(s, s.threads[u]);
  }

  lemma InsideKept(s: State, s': State, t: nat)
    requires Inv(s) && t in s'.threads && !s'.threads[t].Inside() && (t in s.threads ==> !s.threads[t].Inside())
    requires s'.insync == s.insync && s'.threads.Keys == s.threads.Keys + {t}
    requires forall v | v in s'.threads && v != t :: v in s.threads && s'.threads[v] == s.threads[v]
    ensures forall a, b | a in s'.threads && b in s'.threads && s'.threads[a].Inside() && s'.threads[b].Inside() :: a == b
    ensures s'.insync <==> exists u :: u in s'.threads && s'.threads[u].Inside()
  {
    if s.insync {
      var u :| u in s.threads && s.threads[u].Inside();
      assert u in s'.threads && s'.threads[u].Inside();
    }
  }

  lemma EnterInv(s: State, s': State, t: nat)
    requires Inv(s) && Enter(s, s', t)
    ensures Inv(s')
  {
    assert ThreadOk(s, s.threads[t]);
    forall u | u in s'.threads ensures ThreadOk(s', s'.threads[u]) {
      if u != t { OthersOk(s, s', t, u); }
    }
    assert s'.threads[t].Inside();
  }

  /** If offset q*blk + r passes boundary k*blk, the boundary q*blk does not lie below it. */
  lemma PassedBoundary(k: nat, q: nat, r: nat, blk: nat)
    requires r < blk && q * blk + r > k * blk
    ensures q * blk >= k * blk
  {
    assert (q + 1) * blk == q * blk + blk;
    MulLess(k, q + 1, blk);
    MulAtLeast(k, q, blk);
  }

  lemma NextBoundary(blk: nat, syncoff: nat)
    requires blk > 0
    ensures var k := syncoff / blk;
            && (k + 1) * blk > syncoff
            && (if syncoff % blk == 0 then syncoff + blk else RoundUp(syncoff, blk)) == (k + 1) * blk
  {
    var k, c := syncoff / blk, syncoff % blk;
    assert syncoff == k * blk + c;
    assert (k + 1) * blk == k * blk + blk;
    if c > 0 { RoundUpIs(k, c, blk); }
  }

  lemma SplitArithmetic(blk: nat, syncoff: nat, off: nat)
    requires blk > 0 && syncoff <= off && Splits(blk, syncoff, off)
    ensures var tmp := off / blk * blk; tmp % blk == 0 && syncoff < tmp < off && off < tmp + blk
  {
    hide RoundUp;
    var q, r := off / blk, off % blk;
    assert off == q * blk + r;
    DivMod(q, blk, 0);
    NextBoundary(blk, syncoff);
    PassedBoundary(syncoff / blk + 1, q, r, blk);
  }

  /** A block boundary at or beyond the want is beyond the original offset. */
  lemma BoundaryBeyond(blk: nat, want: nat, orig: nat, tmp: nat)
    requires blk > 0 && want > 0 && (want - 1) % blk == 0 && orig < want - 1 + blk && tmp % blk == 0 && tmp >= want
    ensures tmp >= orig
  {
    var a, b := (want - 1) / blk, tmp / blk;
    assert want - 1 == a * blk && tmp == b * blk;
    MulLess(a, b, blk);
    MulAtLeast(a + 1, b, blk);
    assert (a + 1) * blk == a * blk + blk;
  }

  lemma CaptureInv(s: State, s': State, t: nat)
    requires Inv(s) && Capture(s, s', t)
    ensures Inv(s')
  {
    var x := s.threads[t];
    assert ThreadOk(s, x);
    var splits := x.split == 0 && Splits(s.blk, s.syncoff, s.off);
    if splits { SplitArithmetic(s.blk, s.syncoff, s.off); }
    forall u | u in s.threads && s.threads[u].Checking? && s.threads[u].split == 2
      ensures s'.threads[t].tmp >= s.threads[u].want ==> s'.threads[t].tmp >= s.threads[u].orig
    {
      var y := s.threads[u];
      assert ThreadOk(s, y);
      if splits && s'.threads[t].tmp >= y.want { BoundaryBeyond(s.blk, y.want, y.orig, s'.threads[t].tmp); }
    }
    assert forall u | u in s'.threads && u != t :: s'.threads[u] == s.threads[u];
    forall u | u in s'.threads ensures ThreadOk(s', s'.threads[u]) {
      if u != t { OthersOk(s, s', t, u); }
    }
    assert s'.threads[t].Inside();
  }

  lemma FinishInv(s: State, s': State, t: nat)
    requires Inv(s) && Finish(s, s', t)
    ensures Inv(s')
  {
    var x := s.threads[t];
    assert ThreadOk(s, x);
    forall u | u in s'.threads ensures ThreadOk(s', s'.threads[u]) {
      if u != t { assert ThreadOk(s, s.threads[u]); }
    }
    assert forall u | u in s'.threads :: !s'.threads[u].Inside();
  }

  lemma StepInv(s: State, s': State)
    requires Inv(s) && Step(s, s')
    ensures Inv(s')
  {
    assert s.blk > 0;
    hide Inv, Appended, Call, Saved, Enter, Capture, Finish;
    if n: nat :| s' == Appended(s, n) {
      AppendedInv(s, n);
    } else if t: nat, off: nat, aligned: bool :| Call(s, s', t, off, aligned) {
      CallInv(s, s', t, off, aligned);
    } else if t: nat :| Saved(s, s', t) {
      SavedInv(s, s', t);
    } else if t: nat :| Enter(s, s', t) {
      EnterInv(s, s', t);
    } else if t: nat :| Capture(s, s', t) {
      CaptureInv(s, s', t);
    } else {
      var t: nat :| Finish(s, s', t);
      FinishInv(s, s', t);
    }
  }

  // ------------------------------------------------------------- whole runs

  /** A run: consecutive states are related by steps. */
  ghost predicate Run(run: seq<State>) {
    run != [] && Start(run[0]) &&
    forall i | 0 <= i < |run| - 1 :: run[i].blk > 0 && Step(run[i], run[i + 1])
  }

  lemma {:induction false} RunInv(run: seq<State>, i: nat)
    requires Run(run) && i < |run|
    ensures Inv(run[i])
  {
    hide Inv, Step;
    if i == 0 {
      StartInv(run[0]);
    } else {
      RunInv(run, i - 1);
      StepInv(run[i - 1], run[i]);
    }
  }

  lemma StepForward(s: State, s': State)
    requires Inv(s) && Step(s, s')
    ensures s.syncoff <= s'.syncoff && s.off <= s'.off
  {
    if t: nat :| Finish(s, s', t) { assert ThreadOk(s, s.threads[t]); }
  }

  /** The sync offset never moves back. */
  lemma {:induction false} SyncoffMonotone(run: seq<State>, i: nat, j: nat)
    requires Run(run) && i <= j < |run|
    ensures run[i].syncoff <= run[j].syncoff
  {
    hide Step;
    if i < j {
      SyncoffMonotone(run, i, j - 1);
      RunInv(run, j - 1);
      StepForward(run[j - 1], run[j]);
    }
  }

  /** In every run, at most one thread is inside the sync, and once a sync that is not of the
      aligned kind has returned, the sync offset is at or beyond what its caller asked for,
      then and ever after, whatever splits and restarts happened. */
  lemma SyncGuarantee(run: seq<State>, i: nat, j: nat, t: nat)
    requires Run(run) && i <= j < |run| && t in run[i].threads
    ensures run[i].threads[t].Returned? && !run[i].threads[t].aligned ==> run[j].syncoff >= run[i].threads[t].orig
    ensures forall u | u in run[i].threads && run[i].threads[t].Inside() && run[i].threads[u].Inside() :: u == t
  {
    hide Step;
    RunInv(run, i);
    SyncoffMonotone(run, i, j);
    assert ThreadOk(run[i], run[i].threads[t]);
  }

  /** The aligned form either reaches the offset it was asked for or, having split, has moved
      the sync offset strictly forward to a block boundary. */
  lemma AlignedProgress(s: State, s': State, t: nat)
    requires Inv(s) && Finish(s, s', t) && s.threads[t].aligned
    ensures s'.threads[t].Returned? && s'.threads[t].result == s'.syncoff > s.syncoff
    ensures s'.syncoff >= s.threads[t].orig || (s.threads[t].split == 1 && s'.syncoff % s.blk == 0)
  {
    assert ThreadOk(s, s.threads[t]);
  }

  /** What a sync returns is the sync offset at that moment. */
  lemma ResultIsSyncoff(s: State, s': State, t: nat)
    requires s.blk > 0 && Step(s, s') && t in s.threads && t in s'.threads
    requires !s.threads[t].Returned? && s'.threads[t].Returned?
    ensures s'.threads[t].result == s'.syncoff && s'.threads[t].orig == s.threads[t].orig
  {
    hide Splits;
  }

  /** A caller splits at most once: a thread that restarts has its split behind it. */
  lemma SplitsOnce(s: State, s': State, t: nat)
    requires Inv(s) && Capture(s, s', t) && s.threads[t].split != 0
    ensures s'.threads[t].split == 2 && s'.threads[t].tmp == s.off >= s.threads[t].orig
  {
    assert ThreadOk(s, s.threads[t]);
  }

  // ------------------------------------------------------------ every sync can return

  predicate Busy(x: Thread) { x.Checking? || x.Syncing? || x.Writing? }

  /** How far a call is from its return at most. */
  function Rank(x: Thread): nat {
    match x
    case Checking(_, _, _, split) => if split == 0 then 6 else 3
    case Syncing(_, _, _, split) => if split == 0 then 5 else 2
    case Writing(_, _, aligned, split, _) => if split == 1 && !aligned then 4 else 1
    case _ => 0
  }

  /** A step of a call that is under way. */
  ghost predicate Onward(s: State, s': State, t: nat) {
    s.blk > 0 && (Saved(s, s', t) || Enter(s, s', t) || Capture(s, s', t) || Finish(s, s', t))
  }

  /** The same calls, asked for the same offsets, none further from its return. */
  ghost predicate Further(s: State, s': State) {
    && s'.off == s.off && s'.threads.Keys == s.threads.Keys
    && forall u | u in s.threads ::
         && Rank(s'.threads[u]) <= Rank(s.threads[u]) && (s'.threads[u].Idle? <==> s.threads[u].Idle?)
         && (!s.threads[u].Idle? ==> s'.threads[u].orig == s.threads[u].orig && s'.threads[u].aligned == s.threads[u].aligned)
  }

  lemma OnwardDrops(s: State, s': State, t: nat)
    requires Inv(s) && Onward(s, s', t)
    ensures Further(s, s') && t in s.threads && Rank(s'.threads[t]) < Rank(s.threads[t]) && Step(s, s')
  {
    assert t in s.threads && ThreadOk(s, s.threads[t]);
    hide RoundUp;
  }

  /** As long as a call is under way, it or the one inside the sync can go on. */
  lemma SomeOnward(s: State, u: nat) returns (s': State, t: nat)
    requires Inv(s) && u in s.threads && Busy(s.threads[u])
    ensures Onward(s, s', t)
  {
    hide ThreadOk, RoundUp;
    t := u;
    if s.threads[u].Checking? && s.syncoff < s.threads[u].want && s.insync {
      t :| t in s.threads && s.threads[t].Inside();
    }
    var x := s.threads[t];
    match x {
      case Checking(want, orig, aligned, split) =>
        if s.syncoff >= want {
          s' := s.(threads := s.threads[t := Returned(s.syncoff, orig, aligned, split)]);
          assert Saved(s, s', t);
        } else {
          s' := s.(insync := true, threads := s.threads[t := Syncing(want, orig, aligned, split)]);
          assert Enter(s, s', t);
        }
      case Syncing(want, orig, aligned, split) =>
        var tmp := s.off / s.blk * s.blk;
        s' := s.(threads := s.threads[t := if split == 0 && Splits(s.blk, s.syncoff, s.off)
                                           then Writing(tmp + 1, orig, aligned, 1, tmp)
                                           else Writing(want, orig, aligned, split, s.off)]);
        assert Capture(s, s', t);
      case Writing(want, orig, aligned, split, tmp) =>
        s' := s.(syncoff := tmp, insync := false,
                 threads := s.threads[t := if split == 1 && !aligned then Checking(want, orig, aligned, 2)
                                           else Returned(tmp, orig, aligned, split)]);
        assert Finish(s, s', t);
    }
  }

  /** What is left to do for the threads numbered below n. */
  function Work(threads: map<nat, Thread>, n: nat): nat {
    if n == 0 then 0 else Work(threads, n - 1) + if n - 1 in threads then Rank(threads[n - 1]) else 0
  }

  lemma {:induction false} WorkDrops(m: map<nat, Thread>, m': map<nat, Thread>, n: nat, t: nat)
    requires m'.Keys == m.Keys && forall u | u in m :: Rank(m'[u]) <= Rank(m[u])
    requires t in m && Rank(m'[t]) < Rank(m[t])
    ensures Work(m', n) <= Work(m, n) && (t < n ==> Work(m', n) < Work(m, n))
  {
    hide Rank;
    if n > 0 { WorkDrops(m, m', n - 1, t); }
  }

  ghost predicate Chain(states: seq<State>) {
    states != [] && forall i | 0 <= i < |states| - 1 :: states[i].blk > 0 && Step(states[i], states[i + 1])
  }

  ghost predicate Reaches(s: State, s': State) {
    exists states: seq<State> :: Chain(states) && states[0] == s && states[|states| - 1] == s'
  }

  lemma ReachesSelf(s: State)
    ensures Reaches(s, s)
  {
    assert Chain([s]);
  }

  lemma ReachesVia(s: State, s1: State, s2: State)
    requires s.blk > 0 && Step(s, s1) && Reaches(s1, s2)
    ensures Reaches(s, s2)
  {
    hide Step;
    var states: seq<State> :| Chain(states) && states[0] == s1 && states[|states| - 1] == s2;
    var more := [s] + states;
    forall i | 0 <= i < |more| - 1 ensures more[i].blk > 0 && Step(more[i], more[i + 1]) {
      if i > 0 { assert states[i - 1].blk > 0 && Step(states[i - 1], states[i]); }
    }
    assert Chain(more) && more[0] == s && more[|more| - 1] == s2;
  }

  lemma {:induction false} AllReturn(s: State, n: nat) returns (s': State)
    requires Inv(s) && forall t | t in s.threads :: t < n
    ensures Reaches(s, s') && Inv(s') && Further(s, s') && forall t | t in s'.threads :: !Busy(s'.threads[t])
    decreases Work(s.threads, n)
  {
    hide Inv, Reaches, Step, Onward, Rank, Work;
    if u :| u in s.threads && Busy(s.threads[u]) {
      var s1, t := SomeOnward(s, u);
      OnwardDrops(s, s1, t);
      assert s.blk > 0 by { InvBlock(s); }
      StepInv(s, s1);
      WorkDrops(s.threads, s1.threads, n, t);
      s' := AllReturn(s1, n);
      ReachesVia(s, s1, s');
    } else {
      s' := s;
      ReachesSelf(s);
    }
  }

  lemma InvBlock(s: State)
    requires Inv(s)
    ensures s.blk > 0
  {}

  lemma {:induction false} Numbered(ids: set<nat>) returns (n: nat)
    ensures forall t | t in ids :: t < n
  {
    if ids == {} {
      n := 0;
    } else {
      var t :| t in ids;
      var k := Numbered(ids - {t});
      n := if t < k then k else t + 1;
      assert forall u | u in ids :: u == t || u in ids - {t};
    }
  }

  /** From every reachable state every sync that is under way can still return. */
  lemma SyncCanReturn(run: seq<State>, i: nat, t: nat)
    requires Run(run) && i < |run| && t in run[i].threads && Busy(run[i].threads[t])
    ensures exists s' :: Reaches(run[i], s') && t in s'.threads && s'.threads[t].Returned?
  {
    hide Step, Reaches, Rank, Inv;
    RunInv(run, i);
    var n := Numbered(run[i].threads.Keys);
    var s' := AllReturn(run[i], n);
    assert !Busy(s'.threads[t]) && !s'.threads[t].Idle?;
  }

  /** From every reachable state n more bytes can be appended and everything appended so far be synced. */
  lemma AppendCanBeSynced(run: seq<State>, i: nat, n: nat, t: nat)
    requires Run(run) && i < |run| && 0 < run[i].off + n
    requires t in run[i].threads ==> !Busy(run[i].threads[t])
    ensures exists s' :: Reaches(run[i], s') && s'.off == run[i].off + n == s'.syncoff
  {
    hide Reaches, Rank, Inv, Saved, Enter, Capture, Finish;
    RunInv(run, i);
    var s := run[i];
    assert s.blk > 0 by { InvBlock(s); }
    var s1 := Appended(s, n);
    assert Step(s, s1);
    StepInv(s, s1);
    var s2 := s1.(threads := s1.threads[t := Checking(s1.off, s1.off, false, 0)]);
    assert Call(s1, s2, t, s1.off, false);
    assert Step(s1, s2);
    StepInv(s1, s2);
    var bound := Numbered(s2.threads.Keys);
    var s' := AllReturn(s2, bound);
    hide Step;
    ReachesVia(s1, s2, s');
    ReachesVia(s, s1, s');
    ReturnedCovers(s', t);
    assert s'.off == run[i].off + n == s'.syncoff;
  }

  lemma ReturnedCovers(s: State, t: nat)
    requires Inv(s) && t in s.threads && s.threads[t].Returned? && !s.threads[t].aligned
    ensures s.threads[t].orig <= s.syncoff <= s.off
  {
    assert ThreadOk(s, s.threads[t]);
  }
}
