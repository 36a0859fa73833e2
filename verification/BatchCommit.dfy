/** Batch commit of a container with one stream: lc_write_one_spc, streamwrite_one_spc and
    lc_sync_buf, as a transition system over any number of single-record writers.

    A thread here is one call, so thread numbers also name the records.  The container lock
    is held shared by fast writers and exclusively by slow ones; `synclock` makes each
    critical section of lc_sync_buf one step.  Waiting on a condition variable is staying
    put; waiters on fullcv are moved by the broadcast.  lc_sync_buf holds a sync back while
    iocount is positive; here it may also go ahead then, so the results do not depend on that. */
module BatchCommit {

  datatype Pc =
    | Idle
    | Started                   // iocount raised, no lock
    | Shared                    // container lock for reading
    | Copied                    // record in the buffer, still reading lock
    | Exclusive                 // container lock for writing
    | Draining                  // buffull raised, waiting for synccount to reach 0
    | Flushing                  // writing the buffer to flash
    | Flushed(ok: bool)         // flash write done or failed
    | Published(ok: bool)       // syncoff cleared, buffull lowered, fullcv broadcast
    | Fresh                     // NVRAM reset, buffer empty, still writing lock
    | Ready(off: nat, shared: bool)  // record in NVRAM memory at off, lock still held
    | Failing(shared: bool)     // the write failed, lock still held
    | AtSync(off: nat)          // counted in synccount, in lc_sync_buf
    | AtSyncFailed              // counted, off == -1
    | InSync(off: nat)          // insync set, inside nvr_sync_buf_aligned
    | AwaitFlush                // no longer counted, waiting on fullcv
    | Woken                     // woken from fullcv, about to read syncstatus
    | Returned(ok: bool)        // the call's answer

  /** `buf` and `flash` hold records; `nvAt` gives a record's NVRAM offset in this generation;
      `nvOff` and `nvSync` are nso_off and nso_syncoff. */
  datatype State = State(buf: set<nat>, flash: set<nat>, nvAt: map<nat, nat>, nvOff: nat, nvSync: nat,
                         syncoff: nat, syncstatus: bool, insync: bool, buffull: int, iocount: int, synccount: int,
                         threads: map<nat, Pc>)

  predicate HoldsShared(p: Pc) { p.Shared? || p.Copied? || (p.Ready? && p.shared) || (p.Failing? && p.shared) }

  predicate HoldsExclusive(p: Pc) {
    || p.Exclusive? || p.Draining? || p.Flushing? || p.Flushed? || p.Published? || p.Fresh?
    || (p.Ready? && !p.shared) || (p.Failing? && !p.shared)
  }

  /** Counted in iocount, in synccount, in buffull. */
  predicate InIo(p: Pc) { p.Started? || HoldsShared(p) || HoldsExclusive(p) }

  predicate InSyncCount(p: Pc) { p.AtSync? || p.AtSyncFailed? || p.InSync? }

  predicate RaisesFull(p: Pc) { p.Draining? || p.Flushing? || p.Flushed? }

  ghost predicate At(s: State, t: nat, p: Pc) { t in s.threads && s.threads[t] == p }

  ghost predicate NoExclusive(s: State) { forall u | u in s.threads :: !HoldsExclusive(s.threads[u]) }

  ghost predicate NoHolder(s: State) {
    forall u | u in s.threads :: !HoldsExclusive(s.threads[u]) && !HoldsShared(s.threads[u])
  }

  function Moved(s: State, t: nat, p: Pc): State { s.(threads := s.threads[t := p]) }

  // --------------------------------------------------------------------- steps

  datatype Action =
    | Begin | LockShared | Copy | Unshare | LockExclusive | StartFlush | Drained | WriteFlash(written: bool) | Publish(ok: bool)
    | ResetNv | AppendNv(n: nat, synced: nat) | Fail | Count | Saved | GiveUp | EnterSync | SyncDone(soff: nat)
    | SyncFailed | WakeUp | FailedDone

  /** Steps of a run: which thread, and what it does. */
  type Steps = seq<(nat, Action)>

  /** lc_write_one_spc up to lc_sync_buf. */
  ghost predicate WriteStep(s: State, s': State, t: nat, a: Action) {
    && t in s.threads
    && var p := s.threads[t];
       match a
       case Begin => p.Idle? && s' == Moved(s, t, Started).(iocount := s.iocount + 1)
       case LockShared => p.Started? && NoExclusive(s) && s' == Moved(s, t, Shared)
       // fast path: memcpy to the buffer
       case Copy => p.Shared? && s' == Moved(s, t, Copied).(buf := s.buf + {t})
       // slow path: drop the reading lock, take the writing lock
       case Unshare => p.Shared? && s' == Moved(s, t, Started)
       case LockExclusive => p.Started? && NoHolder(s) && s' == Moved(s, t, Exclusive)
       // nvr_write_buffer_partial, with or without its own sync
       case AppendNv(n, synced) =>
         (p.Copied? || p.Exclusive? || p.Fresh?) && n > 0 && s.nvSync <= synced <= s.nvOff + n &&
         s' == Moved(s, t, Ready(s.nvOff + n, p.Copied?)).(
           buf := s.buf + {t}, nvOff := s.nvOff + n, nvSync := synced, nvAt := s.nvAt[t := s.nvOff + n])
       // no placement group, a refused NVRAM write, a failed flash write or reclamation; that a refused
       // write also keeps the NVRAM buffer's mutex would only rule out steps
       case Fail =>
         (p.Copied? || p.Exclusive? || p.Fresh? || (p.Published? && !p.ok)) &&
         s' == Moved(s, t, Failing(p.Copied?))
       // count for sync, leave io, release the lock
       case Count =>
         (p.Ready? || p.Failing?) &&
         s' == Moved(s, t, if p.Ready? then AtSync(p.off) else AtSyncFailed).(
           synccount := s.synccount + 1, iocount := s.iocount - 1)
       case _ => false
  }

  /** streamwrite_one_spc when the record does not fit. */
  ghost predicate FlushStep(s: State, s': State, t: nat, a: Action) {
    && t in s.threads
    && var p := s.threads[t];
       match a
       case StartFlush => p.Exclusive? && s' == Moved(s, t, Draining).(buffull := s.buffull + 1)
       case Drained => p.Draining? && s.synccount == 0 && s' == Moved(s, t, Flushing)
       case WriteFlash(written) =>
         p.Flushing? && s' == Moved(s, t, Flushed(written)).(flash := if written then s.flash + s.buf else s.flash)
       case Publish(ok) =>
         p == Flushed(ok) &&
         s' == Broadcast(Moved(s, t, Published(ok))).(syncstatus := ok, syncoff := 0, buffull := s.buffull - 1)
       case ResetNv =>
         p.Published? && p.ok && s' == Moved(s, t, Fresh).(nvAt := map[], nvOff := 0, nvSync := 0, buf := {})
       case _ => false
  }

  /** lc_sync_buf. */
  ghost predicate SyncStep(s: State, s': State, t: nat, a: Action) {
    && t in s.threads
    && var p := s.threads[t];
       match a
       case FailedDone =>
         p.AtSyncFailed? && s' == Moved(s, t, Returned(false)).(synccount := s.synccount - 1)
       case Saved =>
         p.AtSync? && s.syncoff >= p.off &&
         s' == Moved(s, t, Returned(true)).(synccount := s.synccount - 1)
       case GiveUp =>
         p.AtSync? && !(s.syncoff >= p.off) && !s.insync && s.buffull == 1 &&
         s' == Moved(s, t, AwaitFlush).(synccount := s.synccount - 1)
       case EnterSync =>
         p.AtSync? && !(s.syncoff >= p.off) && !s.insync && s.buffull != 1 &&
         s' == Moved(s, t, InSync(p.off)).(insync := true)
       case SyncDone(soff) =>
         p.InSync? && s.nvSync <= soff <= s.nvOff &&
         (if soff < p.off
          then s' == Moved(s, t, AtSync(p.off)).(nvSync := soff, syncoff := soff, syncstatus := true, insync := false)
          else s' == Moved(s, t, Returned(true)).(
                       nvSync := soff, syncoff := soff, syncstatus := true, insync := false,
                       synccount := s.synccount - 1))
       case SyncFailed =>
         p.InSync? &&
         s' == Moved(s, t, Returned(false)).(
                 syncstatus := false, insync := false, synccount := s.synccount - 1)
       case WakeUp => p.Woken? && s' == Moved(s, t, Returned(s.syncstatus))
       case _ => false
  }

  ghost predicate Step(s: State, s': State, t: nat, a: Action) {
    WriteStep(s, s', t, a) || FlushStep(s, s', t, a) || SyncStep(s, s', t, a)
  }

  /** fullcv is broadcast. */
  function Broadcast(s: State): State {
    s.(threads := map u | u in s.threads :: if s.threads[u].AwaitFlush? then Woken else s.threads[u])
  }

  // ----------------------------------------------------------------- invariant

  /** The record is in synced NVRAM or in an SO on flash. */
  ghost predicate Durable(s: State, t: nat) {
    t in s.flash || (t in s.nvAt && s.nvAt[t] <= s.nvSync)
  }

  ghost predicate InBuffer(s: State, t: nat, off: nat) { t in s.buf && t in s.nvAt && s.nvAt[t] == off }

  /** The call has not reached nvr_write_buffer_partial yet, nor failed. */
  predicate Unwritten(p: Pc) {
    || p.Idle? || p.Started? || p.Shared? || p.Copied? || p.Exclusive? || p.Draining? || p.Flushing? || p.Flushed?
    || p.Published? || p.Fresh?
  }

  /** A call that has written nothing yet has left no record, but for the copy in the buffer. */
  ghost predicate OwnOk(s: State, t: nat)
    requires t in s.threads
  {
    Unwritten(s.threads[t]) ==> t !in s.flash && t !in s.nvAt && (t in s.buf ==> s.threads[t].Copied?)
  }

  /** The record is on flash, or still in the buffer and in this generation of NVRAM. */
  ghost predicate Recorded(s: State, t: nat) { t in s.flash || (t in s.buf && t in s.nvAt) }

  ghost predicate ThreadOk(s: State, t: nat)
    requires t in s.threads
  {
    match s.threads[t]
    case Copied => t in s.buf
    case Ready(off, _) => InBuffer(s, t, off) && off <= s.nvOff
    case AtSync(off) => InBuffer(s, t, off) && off <= s.nvOff
    case InSync(off) => InBuffer(s, t, off) && off <= s.nvOff && s.insync
    case AwaitFlush => t in s.buf && t in s.nvAt && s.buffull == 1
    case Woken => Recorded(s, t)
    case Returned(ok) => ok ==> Recorded(s, t)
    case Flushing => s.synccount == 0
    case Flushed(ok) => s.synccount == 0 && (ok ==> s.buf <= s.flash)
    case Published(ok) => s.synccount == 0 && (ok ==> s.buf <= s.flash) && s.syncoff == 0 && Unawaited(s)
    case Fresh => s.synccount == 0 && s.buf == {}
    case _ => true
  }

  ghost predicate Unawaited(s: State) { forall u | u in s.threads :: !s.threads[u].AwaitFlush? }

  function Counted(s: State): set<nat> { set t | t in s.threads && InSyncCount(s.threads[t]) }
  function Io(s: State): set<nat> { set t | t in s.threads && InIo(s.threads[t]) }
  function Full(s: State): set<nat> { set t | t in s.threads && RaisesFull(s.threads[t]) }

  /** The rules of the container lock. */
  ghost predicate LockOk(s: State) {
    forall t, u | t in s.threads && u in s.threads && HoldsExclusive(s.threads[t]) && u != t ::
      !HoldsExclusive(s.threads[u]) && !HoldsShared(s.threads[u])
  }

  ghost predicate CountsOk(s: State) {
    && s.synccount == |Counted(s)| && s.iocount == |Io(s)| && s.buffull == |Full(s)|
  }

  ghost predicate OneSync(s: State) {
    && (forall t, u | t in s.threads && u in s.threads && s.threads[t].InSync? && s.threads[u].InSync? :: t == u)
    && (s.insync <==> exists t :: t in s.threads && s.threads[t].InSync?)
  }

  ghost predicate OffsetsOk(s: State) {
    s.syncoff <= s.nvSync <= s.nvOff && s.nvAt.Keys <= s.buf
  }

  ghost predicate Inv(s: State) {
    && LockOk(s) && CountsOk(s) && OneSync(s) && OffsetsOk(s)
    && (forall t | t in s.threads :: ThreadOk(s, t)) && (forall t | t in s.threads :: OwnOk(s, t))
  }

  ghost predicate Start(s: State) {
    && s.buf == {} && s.flash == {} && s.nvAt == map[] && s.nvOff == 0 && s.nvSync == 0 && s.syncoff == 0
    && !s.insync && s.buffull == 0 && s.iocount == 0 && s.synccount == 0
    && forall t | t in s.threads :: s.threads[t].Idle?
  }

  lemma StartInv(s: State)
    requires Start(s)
    ensures Inv(s)
  {
    assert Counted(s) == {} && Io(s) == {} && Full(s) == {};
  }

  // ------------------------------------------------------------------- counting

  lemma SetMoves(a: set<nat>, b: set<nat>, t: nat, before: bool, after: bool)
    requires t in a <==> before
    requires t in b <==> after
    requires forall u | u != t :: u in a <==> u in b
    ensures |b| == |a| - One(before) + One(after)
  {
    if before == after {
      assert a == b;
    } else if after {
      assert b == a + {t};
    } else {
      assert a == b + {t};
    }
  }

  function One(b: bool): int { if b then 1 else 0 }

  /** Nobody else moves, but for the waiters a broadcast wakes. */
  ghost predicate Frame(s: State, s': State, t: nat) {
    && t in s.threads && s'.threads.Keys == s.threads.Keys
    && forall u | u in s.threads && u != t ::
         s'.threads[u] == s.threads[u] || (s.threads[u].AwaitFlush? && s'.threads[u].Woken?)
  }

  /** Each counter moves exactly as the thread enters or leaves the group it counts. */
  ghost predicate CountsFollow(s: State, s': State, t: nat)
    requires t in s.threads && t in s'.threads
  {
    && s'.synccount - s.synccount == One(InSyncCount(s'.threads[t])) - One(InSyncCount(s.threads[t]))
    && s'.iocount - s.iocount == One(InIo(s'.threads[t])) - One(InIo(s.threads[t]))
    && s'.buffull - s.buffull == One(RaisesFull(s'.threads[t])) - One(RaisesFull(s.threads[t]))
  }

  lemma WriteStepMoves(s: State, s': State, t: nat, a: Action)
    requires WriteStep(s, s', t, a)
    ensures Frame(s, s', t) && CountsFollow(s, s', t)
  {}

  lemma FlushStepMoves(s: State, s': State, t: nat, a: Action)
    requires FlushStep(s, s', t, a)
    ensures Frame(s, s', t) && CountsFollow(s, s', t)
  {}

  lemma SyncStepFrame(s: State, s': State, t: nat, a: Action)
    requires SyncStep(s, s', t, a)
    ensures Frame(s, s', t)
  {}

  lemma SyncStepMoves(s: State, s': State, t: nat, a: Action)
    requires SyncStep(s, s', t, a)
    ensures Frame(s, s', t) && CountsFollow(s, s', t)
  {
    SyncStepFrame(s, s', t, a);
    hide Frame;
  }

  lemma StepMoves(s: State, s': State, t: nat, a: Action)
    requires Step(s, s', t, a)
    ensures Frame(s, s', t) && CountsFollow(s, s', t)
  {
    hide WriteStep, FlushStep, SyncStep, Frame, CountsFollow;
    if WriteStep(s, s', t, a) {
      WriteStepMoves(s, s', t, a);
    } else if FlushStep(s, s', t, a) {
      FlushStepMoves(s, s', t, a);
    } else {
      SyncStepMoves(s, s', t, a);
    }
  }

  /** What a step does to the three counts, given where the thread was and is. */
  lemma CountsMove(s: State, s': State, t: nat)
    requires Frame(s, s', t)
    ensures |Counted(s')| == |Counted(s)| - One(InSyncCount(s.threads[t])) + One(InSyncCount(s'.threads[t]))
    ensures |Io(s')| == |Io(s)| - One(InIo(s.threads[t])) + One(InIo(s'.threads[t]))
    ensures |Full(s')| == |Full(s)| - One(RaisesFull(s.threads[t])) + One(RaisesFull(s'.threads[t]))
  {
    SetMoves(Counted(s), Counted(s'), t, InSyncCount(s.threads[t]), InSyncCount(s'.threads[t]));
    SetMoves(Io(s), Io(s'), t, InIo(s.threads[t]), InIo(s'.threads[t]));
    SetMoves(Full(s), Full(s'), t, RaisesFull(s.threads[t]), RaisesFull(s'.threads[t]));
  }

  lemma CountsInv(s: State, s': State, t: nat, a: Action)
    requires Step(s, s', t, a) && CountsOk(s)
    ensures CountsOk(s')
  {
    StepMoves(s, s', t, a);
    CountsMove(s, s', t);
    hide Counted, Io, Full, Step, InIo, InSyncCount, RaisesFull;
  }

  /** Nobody is counted when the count is zero. */
  lemma NoneCounted(s: State, t: nat)
    requires CountsOk(s) && s.synccount == 0 && t in s.threads
    ensures !InSyncCount(s.threads[t])
  {
    assert t in Counted(s) <==> InSyncCount(s.threads[t]);
  }

  lemma FullRaised(s: State, t: nat)
    requires CountsOk(s) && LockOk(s) && t in s.threads && RaisesFull(s.threads[t])
    ensures s.buffull == 1
  {
    assert Full(s) == {t};
  }

  lemma FullAtMostOne(s: State)
    requires CountsOk(s) && LockOk(s)
    ensures s.buffull <= 1
  {
    if t :| t in s.threads && RaisesFull(s.threads[t]) {
      FullRaised(s, t);
    } else {
      assert Full(s) == {};
    }
  }

  // --------------------------------------------------- every step keeps the parts

  /** A lock is taken only when it is free. */
  ghost predicate LockFollows(s: State, s': State, t: nat)
    requires t in s.threads && t in s'.threads
  {
    && (HoldsExclusive(s'.threads[t]) ==> HoldsExclusive(s.threads[t]) || NoHolder(s))
    && (HoldsShared(s'.threads[t]) ==> HoldsShared(s.threads[t]) || NoExclusive(s))
  }

  lemma StepLock(s: State, s': State, t: nat, a: Action)
    requires Step(s, s', t, a) && Frame(s, s', t)
    ensures LockFollows(s, s', t)
  {
    hide Frame, NoHolder, NoExclusive;
    if FlushStep(s, s', t, a) {
      hide WriteStep, SyncStep;
      assert HoldsExclusive(s.threads[t]) && HoldsExclusive(s'.threads[t]);
    } else if SyncStep(s, s', t, a) {
      hide WriteStep;
      assert !HoldsExclusive(s'.threads[t]) && !HoldsShared(s'.threads[t]);
    }
  }

  lemma LockInv(s: State, s': State, t: nat)
    requires LockOk(s) && Frame(s, s', t) && LockFollows(s, s', t)
    ensures LockOk(s')
  {}

  /** The insync flag goes up and down with the thread inside the NVRAM sync. */
  ghost predicate SyncFollows(s: State, s': State, t: nat)
    requires t in s.threads && t in s'.threads
  {
    var before, after := s.threads[t].InSync?, s'.threads[t].InSync?;
    if before == after then s'.insync == s.insync
    else if after then !s.insync && s'.insync
    else !s'.insync
  }

  lemma StepSync(s: State, s': State, t: nat, a: Action)
    requires Step(s, s', t, a) && Frame(s, s', t)
    ensures SyncFollows(s, s', t)
  {
    hide Frame, NoHolder, NoExclusive;
  }

  lemma OneSyncInv(s: State, s': State, t: nat)
    requires Frame(s, s', t) && SyncFollows(s, s', t) && OneSync(s)
    ensures OneSync(s')
  {
    if s.insync {
      var u :| u in s.threads && s.threads[u].InSync?;
      assert u != t ==> s'.threads[u] == s.threads[u];
    }
  }

  lemma OffsetsInv(s: State, s': State, t: nat, a: Action)
    requires Step(s, s', t, a) && OffsetsOk(s) && t in s.threads && ThreadOk(s, t)
    ensures OffsetsOk(s')
  {
    hide NoExclusive, NoHolder, Unawaited;
  }

  // -------------------------------------------------------- what each thread may count on

  lemma WriteStepThread(s: State, s': State, t: nat, a: Action, u: nat)
    requires WriteStep(s, s', t, a) && Frame(s, s', t) && u in s.threads
    requires LockOk(s) && OffsetsOk(s) && ThreadOk(s, u) && ThreadOk(s, t)
    ensures ThreadOk(s', u)
  {
    hide Broadcast;
  }

  lemma FlushStepThread(s: State, s': State, t: nat, a: Action, u: nat)
    requires FlushStep(s, s', t, a) && Frame(s, s', t) && u in s.threads
    requires LockOk(s) && CountsOk(s) && OffsetsOk(s) && ThreadOk(s, u) && ThreadOk(s, t)
    ensures ThreadOk(s', u)
  {
    FullAtMostOne(s);
    if s.synccount == 0 { NoneCounted(s, u); }
    hide CountsOk, Counted, Io, Full;
  }

  lemma FlushStepRecord(s: State, s': State, t: nat, a: Action, u: nat)
    requires FlushStep(s, s', t, a) && Frame(s, s', t) && LockOk(s) && u in s.threads && OwnOk(s, u)
    ensures OwnOk(s', u)
  {}

  lemma WriteStepRecord(s: State, s': State, t: nat, a: Action, u: nat)
    requires WriteStep(s, s', t, a) && u in s.threads && OwnOk(s, u)
    ensures u in s'.threads && OwnOk(s', u)
  {
    hide NoHolder, NoExclusive;
  }

  lemma SyncStepRecord(s: State, s': State, t: nat, a: Action, u: nat)
    requires SyncStep(s, s', t, a) && Frame(s, s', t) && u in s.threads && OwnOk(s, u)
    ensures OwnOk(s', u)
  {
    SyncStepFields(s, s', t, a);
    assert !Unwritten(s'.threads[t]);
    hide SyncStep;
  }

  /** A call before its NVRAM write stays without a record. */
  lemma StepOwn(s: State, s': State, t: nat, a: Action, u: nat)
    requires Step(s, s', t, a) && Frame(s, s', t) && LockOk(s) && u in s.threads && OwnOk(s, u)
    ensures OwnOk(s', u)
  {
    hide WriteStep, FlushStep, SyncStep, OwnOk, LockOk;
    if WriteStep(s, s', t, a) {
      WriteStepRecord(s, s', t, a, u);
    } else if FlushStep(s, s', t, a) {
      FlushStepRecord(s, s', t, a, u);
    } else {
      SyncStepRecord(s, s', t, a, u);
    }
  }

  /** lc_sync_buf touches no record, and nothing at all that a flusher relies on. */
  lemma SyncStepFields(s: State, s': State, t: nat, a: Action)
    requires SyncStep(s, s', t, a)
    ensures s'.buf == s.buf && s'.flash == s.flash && s'.nvAt == s.nvAt && s'.nvOff == s.nvOff
    ensures s.nvSync <= s'.nvSync && s'.buffull == s.buffull
    ensures t in s.threads && (!InSyncCount(s.threads[t]) ==> s'.synccount == s.synccount && s'.syncoff == s.syncoff)
    ensures t in s'.threads && (s'.threads[t].AwaitFlush? ==> InSyncCount(s.threads[t]))
  {}

  lemma SyncStepOwn(s: State, s': State, t: nat, a: Action)
    requires SyncStep(s, s', t, a) && Frame(s, s', t)
    requires OffsetsOk(s) && ThreadOk(s, t)
    ensures ThreadOk(s', t)
  {
    hide Frame, Unawaited;
  }

  lemma SyncStepOther(s: State, s': State, t: nat, a: Action, u: nat)
    requires SyncStep(s, s', t, a) && Frame(s, s', t) && OneSync(s) && OneSync(s')
    requires u in s.threads && u != t && ThreadOk(s, u)
    requires s.synccount == 0 ==> !InSyncCount(s.threads[t])
    ensures ThreadOk(s', u)
  {
    SyncStepFields(s, s', t, a);
    assert s'.threads[u] == s.threads[u] by { hide OneSync, ThreadOk; }
    hide SyncStep;
  }

  lemma SyncStepThread(s: State, s': State, t: nat, a: Action, u: nat)
    requires SyncStep(s, s', t, a) && Frame(s, s', t) && u in s.threads
    requires CountsOk(s) && OneSync(s) && OneSync(s') && OffsetsOk(s) && ThreadOk(s, u) && ThreadOk(s, t)
    ensures ThreadOk(s', u)
  {
    if s.synccount == 0 { NoneCounted(s, t); }
    hide SyncStep, OneSync, ThreadOk, CountsOk, OffsetsOk;
    if u == t { SyncStepOwn(s, s', t, a); } else { SyncStepOther(s, s', t, a, u); }
  }

  // -------------------------------------------------------------------- main results

  lemma StepInv(s: State, s': State, t: nat, a: Action)
    requires Inv(s) && Step(s, s', t, a)
    ensures Inv(s')
  {
    StepMoves(s, s', t, a);
    CountsInv(s, s', t, a);
    StepLock(s, s', t, a);
    LockInv(s, s', t);
    StepSync(s, s', t, a);
    OneSyncInv(s, s', t);
    OffsetsInv(s, s', t, a);
    hide WriteStep, FlushStep, SyncStep, ThreadOk, OwnOk, LockOk, CountsOk, OneSync, OffsetsOk, CountsFollow, LockFollows,
         SyncFollows;
    forall u | u in s'.threads ensures ThreadOk(s', u) && OwnOk(s', u) {
      assert u in s.threads;
      StepOwn(s, s', t, a, u);
      if WriteStep(s, s', t, a) {
        WriteStepThread(s, s', t, a, u);
      } else if FlushStep(s, s', t, a) {
        FlushStepThread(s, s', t, a, u);
      } else {
        SyncStepThread(s, s', t, a, u);
      }
    }
  }

  /** A run: states joined by steps of any threads in any order. */
  ghost predicate Run(states: seq<State>, steps: Steps) {
    && |states| == |steps| + 1
    && forall i | 0 <= i < |steps| :: Step(states[i], states[i + 1], steps[i].0, steps[i].1)
  }

  lemma {:induction false} RunInv(states: seq<State>, steps: Steps, i: nat)
    requires Run(states, steps) && Start(states[0]) && i < |states|
    ensures Inv(states[i])
  {
    if i == 0 {
      StartInv(states[0]);
    } else {
      RunInv(states, steps, i - 1);
      assert Step(states[i - 1], states[i], steps[i - 1].0, steps[i - 1].1);
      StepInv(states[i - 1], states[i], steps[i - 1].0, steps[i - 1].1);
    }
  }

  // ------------------------------------------------------------------ durability

  /** What the invariant says about one thread. */
  ghost predicate OneOk(s: State, t: nat) { t in s.threads && ThreadOk(s, t) && OwnOk(s, t) && OffsetsOk(s) }

  lemma InvOne(s: State, t: nat)
    requires Inv(s) && t in s.threads
    ensures OneOk(s, t)
  {}

  lemma StepDurable(s: State, s': State, t: nat, a: Action, u: nat)
    requires OneOk(s, t) && Step(s, s', t, a) && u in s.threads && Durable(s, u)
    ensures Durable(s', u)
  {
    hide NoHolder, NoExclusive, Unawaited;
    if FlushStep(s, s', t, a) { hide WriteStep, SyncStep; }
  }

  /** What is durable stays durable, through flushes and NVRAM generations. */
  lemma {:induction false} DurableStays(states: seq<State>, steps: Steps, i: nat, j: nat, t: nat)
    requires Run(states, steps) && Start(states[0]) && i <= j < |states|
    requires t in states[i].threads && Durable(states[i], t)
    ensures t in states[j].threads && Durable(states[j], t)
  {
    hide Durable, Inv, WriteStep, FlushStep, SyncStep, OneOk, Start;
    if i < j {
      DurableStays(states, steps, i, j - 1, t);
      RunInv(states, steps, j - 1);
      assert Step(states[j - 1], states[j], steps[j - 1].0, steps[j - 1].1);
      StepMoves(states[j - 1], states[j], steps[j - 1].0, steps[j - 1].1);
      InvOne(states[j - 1], steps[j - 1].0);
      StepDurable(states[j - 1], states[j], steps[j - 1].0, steps[j - 1].1, t);
    }
  }

  /** What the call answers at step j. */
  ghost predicate Answers(states: seq<State>, steps: Steps, j: nat, t: nat, ok: bool)
    requires Run(states, steps) && j < |steps|
  {
    steps[j].0 == t && t in states[j].threads && !states[j].threads[t].Returned? && At(states[j + 1], t, Returned(ok))
  }

  lemma AnswerDurable(s: State, s': State, t: nat, a: Action)
    requires OneOk(s, t) && Step(s, s', t, a) && !s.threads[t].Returned? && At(s', t, Returned(true)) && !a.WakeUp?
    ensures Durable(s', t)
  {
    hide NoHolder, NoExclusive, Unawaited;
    if SyncStep(s, s', t, a) { hide WriteStep, FlushStep; }
  }

  /** A call that answers success without having waited on fullcv has its record in synced NVRAM
      or on flash at that moment and at every later one. */
  lemma SuccessIsDurable(states: seq<State>, steps: Steps, j: nat, i: nat, t: nat)
    requires Run(states, steps) && Start(states[0]) && j < i < |states|
    requires Answers(states, steps, j, t, true) && !steps[j].1.WakeUp?
    ensures Durable(states[i], t)
  {
    RunInv(states, steps, j);
    assert Step(states[j], states[j + 1], steps[j].0, steps[j].1);
    hide Durable, Inv, Step, Start, OneOk;
    InvOne(states[j], t);
    AnswerDurable(states[j], states[j + 1], t, steps[j].1);
    DurableStays(states, steps, j + 1, i, t);
  }

  // ------------------------------------------------------- what a woken call answers

  /** The steps that set syncstatus, and to what. */
  predicate Sets(a: Action) { a.Publish? || a.SyncDone? || a.SyncFailed? }

  predicate SetTo(a: Action)
    requires Sets(a)
  {
    a.SyncDone? || (a.Publish? && a.ok)
  }

  /** Length of the shortest prefix of the steps before j that holds every step that sets
      syncstatus; 0 if none does. */
  function LastSet(steps: Steps, j: nat): (n: nat)
    requires j <= |steps|
    ensures n <= j && (0 < n ==> Sets(steps[n - 1].1)) && forall i | n <= i < j :: !Sets(steps[i].1)
  {
    if j == 0 || Sets(steps[j - 1].1) then j else LastSet(steps, j - 1)
  }

  lemma StepStatus(s: State, s': State, t: nat, a: Action)
    requires Step(s, s', t, a)
    ensures s'.syncstatus == if Sets(a) then SetTo(a) else s.syncstatus
    ensures !Sets(a) && Unwoken(s) ==> Unwoken(s')
  {
    hide NoHolder, NoExclusive;
  }

  ghost predicate Unwoken(s: State) { forall u | u in s.threads :: !s.threads[u].Woken? }

  lemma {:induction false} StatusIs(states: seq<State>, steps: Steps, j: nat)
    requires Run(states, steps) && Start(states[0]) && j <= |steps|
    ensures LastSet(steps, j) == 0 ==> Unwoken(states[j])
    ensures 0 < LastSet(steps, j) ==> states[j].syncstatus == SetTo(steps[LastSet(steps, j) - 1].1)
  {
    hide WriteStep, FlushStep, SyncStep;
    if j > 0 {
      hide Unwoken, Start;
      StatusIs(states, steps, j - 1);
      assert Step(states[j - 1], states[j], steps[j - 1].0, steps[j - 1].1);
      StepStatus(states[j - 1], states[j], steps[j - 1].0, steps[j - 1].1);
    }
  }

  /** A woken call answers success exactly when the last step before it that set syncstatus, by
      whichever thread, was a sync that got anywhere or a flash write that succeeded. */
  lemma WakeAnswers(states: seq<State>, steps: Steps, j: nat)
    requires Run(states, steps) && Start(states[0]) && j < |steps| && steps[j].1.WakeUp?
    ensures 0 < LastSet(steps, j)
    ensures At(states[j + 1], steps[j].0, Returned(SetTo(steps[LastSet(steps, j) - 1].1)))
  {
    StatusIs(states, steps, j);
    assert Step(states[j], states[j + 1], steps[j].0, steps[j].1);
    assert states[j].threads[steps[j].0].Woken?;
  }

  /** nso_off after the first n steps: bytes appended since the last NVRAM reset. */
  function NvEnd(steps: Steps, n: nat): (end: nat)
    requires n <= |steps|
  {
    if n == 0 then 0
    else
      match steps[n - 1].1
      case AppendNv(k, _) => NvEnd(steps, n - 1) + k
      case ResetNv => 0
      case _ => NvEnd(steps, n - 1)
  }

  lemma StepNvOff(s: State, s': State, t: nat, a: Action)
    requires Step(s, s', t, a)
    ensures s'.nvOff == match a case AppendNv(k, _) => s.nvOff + k case ResetNv => 0 case _ => s.nvOff
  {
    hide NoHolder, NoExclusive;
  }

  lemma {:induction false} NvEndIs(states: seq<State>, steps: Steps, n: nat)
    requires Run(states, steps) && Start(states[0]) && n <= |steps|
    ensures states[n].nvOff == NvEnd(steps, n)
  {
    hide WriteStep, FlushStep, SyncStep;
    if n > 0 {
      NvEndIs(states, steps, n - 1);
      assert Step(states[n - 1], states[n], steps[n - 1].0, steps[n - 1].1);
      StepNvOff(states[n - 1], states[n], steps[n - 1].0, steps[n - 1].1);
    }
  }

  /** At step a the call appends its record. */
  ghost predicate AppendsAt(steps: Steps, a: nat, t: nat)
    requires a < |steps|
  {
    steps[a].0 == t && steps[a].1.AppendNv?
  }

  /** The step syncs NVRAM up to an offset. */
  predicate Syncs(a: Action, off: nat) { (a.AppendNv? && off <= a.synced) || (a.SyncDone? && off <= a.soff) }

  /** From step a on and before step j some step synced NVRAM up to an offset. */
  ghost predicate SyncedBetween(steps: Steps, a: nat, j: nat, off: nat)
    requires j <= |steps|
  {
    exists i: nat | a <= i < j :: Syncs(steps[i].1, off)
  }

  /** A flash write succeeded after step a and before step j. */
  ghost predicate FlashedBetween(steps: Steps, a: nat, j: nat)
    requires j <= |steps|
  {
    exists i: nat | a < i < j :: steps[i].1 == WriteFlash(true)
  }

  /** The record of a call is on flash, or where the call put it. */
  ghost predicate Kept(s: State, t: nat, off: nat) { t in s.flash || InBuffer(s, t, off) }

  lemma StepKept(s: State, s': State, t: nat, a: Action, u: nat, off: nat)
    requires OneOk(s, t) && Step(s, s', t, a) && u in s.threads && Kept(s, u, off)
    ensures Kept(s', u, off)
    ensures u in s'.flash <==> u in s.flash || a == WriteFlash(true)
  {
    hide NoHolder, NoExclusive, Unawaited;
    if FlushStep(s, s', t, a) { hide WriteStep, SyncStep; }
  }

  /** No thread is between a successful flash write and the NVRAM reset. */
  ghost predicate Unflushed(s: State) {
    forall u | u in s.threads :: s.threads[u] != Flushed(true) && s.threads[u] != Published(true)
  }

  lemma Appended(s: State, s': State, t: nat, a: Action)
    requires OneOk(s, t) && LockOk(s) && Step(s, s', t, a) && a.AppendNv?
    ensures t in s'.threads && t !in s'.flash && Kept(s', t, s'.nvOff) && Unflushed(s') && s'.nvSync == a.synced
  {
    hide NoHolder, NoExclusive, ThreadOk, OffsetsOk;
  }

  lemma StepUnflushed(s: State, s': State, t: nat, a: Action)
    requires Unflushed(s) && Step(s, s', t, a) && a != WriteFlash(true)
    ensures Unflushed(s') && s.nvSync <= s'.nvSync
    ensures forall off: nat :: off <= s'.nvSync <==> off <= s.nvSync || Syncs(a, off)
  {
    hide NoHolder, NoExclusive;
  }

  /** What becomes of a record: it is on flash exactly when a flash write succeeded since it was
      appended; until then it is where the call put it, and NVRAM is synced up to an offset exactly
      when some step since the append synced that far. */
  ghost predicate Fate(steps: Steps, a: nat, j: nat, s: State, t: nat)
    requires a < j <= |steps|
  {
    && t in s.threads && Kept(s, t, NvEnd(steps, a + 1))
    && (t in s.flash <==> FlashedBetween(steps, a, j))
    && (!FlashedBetween(steps, a, j) ==>
          Unflushed(s) && (NvEnd(steps, a + 1) <= s.nvSync <==> SyncedBetween(steps, a, j, NvEnd(steps, a + 1))))
  }

  lemma FateStarts(s: State, s': State, steps: Steps, a: nat, t: nat)
    requires a < |steps| && OneOk(s, t) && LockOk(s) && Step(s, s', t, steps[a].1)
    requires AppendsAt(steps, a, t) && s'.nvOff == NvEnd(steps, a + 1)
    ensures Fate(steps, a, a + 1, s', t)
  {
    Appended(s, s', t, steps[a].1);
    hide Step, Kept, Unflushed, OneOk, LockOk;
    assert !FlashedBetween(steps, a, a + 1);
    assert SyncedBetween(steps, a, a + 1, NvEnd(steps, a + 1)) <==> Syncs(steps[a].1, NvEnd(steps, a + 1));
  }

  lemma BetweenStep(steps: Steps, a: nat, j: nat, off: nat)
    requires a < j < |steps|
    ensures FlashedBetween(steps, a, j + 1) <==> FlashedBetween(steps, a, j) || steps[j].1 == WriteFlash(true)
    ensures SyncedBetween(steps, a, j + 1, off) <==> SyncedBetween(steps, a, j, off) || Syncs(steps[j].1, off)
  {}

  lemma FateStep(s: State, s': State, steps: Steps, a: nat, j: nat, t: nat)
    requires a < j < |steps| && OneOk(s, steps[j].0) && Step(s, s', steps[j].0, steps[j].1) && Fate(steps, a, j, s, t)
    ensures Fate(steps, a, j + 1, s', t)
  {
    hide OneOk, Kept, WriteStep, FlushStep, SyncStep, FlashedBetween, SyncedBetween, Unflushed, NvEnd;
    var off := NvEnd(steps, a + 1);
    StepKept(s, s', steps[j].0, steps[j].1, t, off);
    StepMoves(s, s', steps[j].0, steps[j].1);
    BetweenStep(steps, a, j, off);
    if !FlashedBetween(steps, a, j + 1) { StepUnflushed(s, s', steps[j].0, steps[j].1); }
  }

  lemma {:induction false} OnFlashIff(states: seq<State>, steps: Steps, a: nat, j: nat, t: nat)
    requires Run(states, steps) && Start(states[0]) && a < j <= |steps| && AppendsAt(steps, a, t)
    ensures Fate(steps, a, j, states[j], t)
  {
    hide Fate, Start, WriteStep, FlushStep, SyncStep, OneOk, NvEnd, ThreadOk, OwnOk, LockOk, CountsOk, OneSync, OffsetsOk;
    RunInv(states, steps, j - 1);
    assert Step(states[j - 1], states[j], steps[j - 1].0, steps[j - 1].1);
    StepMoves(states[j - 1], states[j], steps[j - 1].0, steps[j - 1].1);
    InvOne(states[j - 1], steps[j - 1].0);
    if j == a + 1 {
      NvEndIs(states, steps, j);
      FateStarts(states[a], states[j], steps, a, t);
    } else {
      OnFlashIff(states, steps, a, j - 1, t);
      FateStep(states[j - 1], states[j], steps, a, j - 1, t);
    }
  }

  /** A call that answers success did so though its record is on neither medium, if and only if it
      was woken from fullcv and, since it appended the record, no flash write succeeded and no step
      synced NVRAM up to the record's end. */
  lemma FalseSuccessIff(states: seq<State>, steps: Steps, a: nat, j: nat, t: nat)
    requires Run(states, steps) && Start(states[0]) && a < j < |steps|
    requires AppendsAt(steps, a, t) && Answers(states, steps, j, t, true)
    ensures !Durable(states[j + 1], t) <==>
            steps[j].1.WakeUp? && !FlashedBetween(steps, a, j) && !SyncedBetween(steps, a, j, NvEnd(steps, a + 1))
  {
    OnFlashIff(states, steps, a, j, t);
    assert Step(states[j], states[j + 1], steps[j].0, steps[j].1);
    hide FlashedBetween, SyncedBetween, NvEnd, Start, Unflushed;
    if steps[j].1.WakeUp? {
      hide WriteStep, FlushStep;
    } else {
      hide Step, Durable, AppendsAt, Kept, Fate;
      SuccessIsDurable(states, steps, j, j + 1, t);
    }
  }

  /** The exact schedules in which a woken call lies: the last step to set syncstatus set it to
      success, yet no flash write and no sync since the append has reached the record. */
  lemma WokenFalselyIff(states: seq<State>, steps: Steps, a: nat, j: nat, t: nat)
    requires Run(states, steps) && Start(states[0]) && a < j < |steps| && steps[j] == (t, WakeUp)
    requires AppendsAt(steps, a, t)
    ensures 0 < LastSet(steps, j)
    ensures At(states[j + 1], t, Returned(true)) && !Durable(states[j + 1], t) <==>
            && SetTo(steps[LastSet(steps, j) - 1].1)
            && !FlashedBetween(steps, a, j) && !SyncedBetween(steps, a, j, NvEnd(steps, a + 1))
  {
    hide FlashedBetween, SyncedBetween, NvEnd, Start, Durable, LastSet, AppendsAt;
    WakeAnswers(states, steps, j);
    assert Step(states[j], states[j + 1], t, WakeUp);
    if At(states[j + 1], t, Returned(true)) {
      assert Answers(states, steps, j, t, true);
      FalseSuccessIff(states, steps, a, j, t);
    }
  }

  /** The calls that have appended their record. */
  predicate HasAppended(p: Pc) { p.Ready? || p.AtSync? || p.InSync? || p.AwaitFlush? || p.Woken? || p == Returned(true) }

  lemma StepAppends(s: State, s': State, t: nat, a: Action, u: nat)
    requires Step(s, s', t, a) && u in s.threads && !HasAppended(s.threads[u])
    ensures u in s'.threads && (HasAppended(s'.threads[u]) ==> u == t && a.AppendNv?)
  {
    hide NoHolder, NoExclusive;
    StepMoves(s, s', t, a);
    hide CountsFollow;
    if u != t { hide WriteStep, FlushStep, SyncStep; }
  }

  /** Every call that answers success has appended its record before. */
  lemma {:induction false} SuccessAppended(states: seq<State>, steps: Steps, j: nat, t: nat) returns (a: nat)
    requires Run(states, steps) && Start(states[0]) && j < |states|
    requires t in states[j].threads && HasAppended(states[j].threads[t])
    ensures a < j && AppendsAt(steps, a, t)
  {
    var i := j - 1;
    assert Step(states[i], states[j], steps[i].0, steps[i].1);
    StepMoves(states[i], states[j], steps[i].0, steps[i].1);
    hide Step, Start;
    if HasAppended(states[i].threads[t]) {
      a := SuccessAppended(states, steps, i, t);
    } else {
      StepAppends(states[i], states[j], steps[i].0, steps[i].1, t);
      a := i;
    }
  }

  /** A thread comparing its offset with syncoff has its record in the present buffer and NVRAM
      generation, and syncoff never runs ahead of what NVRAM has synced. */
  lemma SameGeneration(states: seq<State>, steps: Steps, i: nat, t: nat, off: nat)
    requires Run(states, steps) && Start(states[0]) && i < |states|
    requires At(states[i], t, AtSync(off)) || At(states[i], t, InSync(off))
    ensures InBuffer(states[i], t, off) && states[i].syncoff <= states[i].nvSync
    ensures forall u | u in states[i].threads :: !states[i].threads[u].Flushing? && !states[i].threads[u].Flushed? && !states[i].threads[u].Published?
  {
    RunInv(states, steps, i);
    assert ThreadOk(states[i], t);
    assert t in Counted(states[i]);
    assert forall u | u in states[i].threads :: ThreadOk(states[i], u);
  }

  /** Whoever waits on fullcv waits for exactly one thread, which is flushing, and only the broadcast
      by that thread ends the wait. */
  lemma WaiterHasFlusher(states: seq<State>, steps: Steps, i: nat, t: nat) returns (u: nat)
    requires Run(states, steps) && Start(states[0]) && i < |states|
    requires At(states[i], t, AwaitFlush)
    ensures Full(states[i]) == {u}
    ensures i < |steps| ==>
              At(states[i + 1], t, AwaitFlush) || (At(states[i + 1], t, Woken) && steps[i].0 == u && steps[i].1.Publish?)
  {
    RunInv(states, steps, i);
    u := FlusherOf(states[i], t);
    if i < |steps| {
      assert Step(states[i], states[i + 1], steps[i].0, steps[i].1);
      hide Inv, Step;
      WaiterStep(states[i], states[i + 1], steps[i].0, steps[i].1, t);
    }
  }

  lemma FlusherOf(s: State, t: nat) returns (u: nat)
    requires Inv(s) && At(s, t, AwaitFlush)
    ensures Full(s) == {u}
  {
    assert ThreadOk(s, t);
    assert |Full(s)| == 1;
    u :| u in Full(s);
    assert Full(s) == {u};
  }

  lemma WaiterStep(s: State, s': State, t: nat, a: Action, w: nat)
    requires Step(s, s', t, a) && At(s, w, AwaitFlush)
    ensures At(s', w, AwaitFlush) || (At(s', w, Woken) && t in Full(s) && a.Publish?)
  {
    hide NoHolder, NoExclusive;
  }

  /** The assertions in the code: the counters after Begin and Count, synccount at Publish, insync at
      EnterSync. */
  ghost predicate Asserted(s: State, s': State, a: Action) {
    && (a.Begin? ==> s'.iocount > 0)
    && (a.Count? ==> s'.synccount > 0 && s'.iocount >= 0)
    && (a.WriteFlash? || a.Publish? ==> s.synccount == 0 && s.buffull == 1)
    && (a.EnterSync? ==> forall u | u in s.threads :: !s.threads[u].InSync?)
  }

  lemma StepAsserts(s: State, s': State, t: nat, a: Action)
    requires Step(s, s', t, a) && Inv(s) && Inv(s')
    ensures Asserted(s, s', a)
  {
    hide NoExclusive, NoHolder, Broadcast;
    if a.Begin? {
      assert t in Io(s');
    } else if a.Count? {
      assert t in Counted(s');
    } else if a.WriteFlash? || a.Publish? {
      assert ThreadOk(s, t);
      FullRaised(s, t);
    }
  }

  lemma AssertionsHold(states: seq<State>, steps: Steps, i: nat)
    requires Run(states, steps) && Start(states[0]) && i < |steps|
    ensures Asserted(states[i], states[i + 1], steps[i].1)
  {
    RunInv(states, steps, i);
    RunInv(states, steps, i + 1);
    hide Inv, Step;
    StepAsserts(states[i], states[i + 1], steps[i].0, steps[i].1);
  }

  // ----------------------------------------------------------- a failed flash write

  /** Every flash write so far succeeded. */
  ghost predicate Flawless(s: State, t: nat)
    requires t in s.threads
  {
    match s.threads[t]
    case Flushed(ok) => ok
    case Published(ok) => ok
    case Woken => t in s.flash
    case _ => true
  }

  lemma FlawlessFlush(s: State, s': State, t: nat, a: Action, u: nat)
    requires FlushStep(s, s', t, a) && a != WriteFlash(false) && u in s.threads
    requires ThreadOk(s, u) && ThreadOk(s, t) && Flawless(s, u) && Flawless(s, t)
    ensures u in s'.threads && Flawless(s', u)
  {
    hide Unawaited;
  }

  lemma FlawlessOther(s: State, s': State, t: nat, a: Action, u: nat)
    requires WriteStep(s, s', t, a) || SyncStep(s, s', t, a)
    requires u in s.threads && Flawless(s, u)
    ensures u in s'.threads && Flawless(s', u)
  {
    hide NoExclusive, NoHolder;
  }

  lemma FlawlessStep(s: State, s': State, t: nat, a: Action, u: nat)
    requires Inv(s) && Step(s, s', t, a) && a != WriteFlash(false) && u in s.threads
    requires t in s.threads && Flawless(s, u) && Flawless(s, t)
    ensures u in s'.threads && Flawless(s', u)
  {
    hide WriteStep, FlushStep, SyncStep, Flawless, ThreadOk, OwnOk, LockOk, CountsOk, OneSync, OffsetsOk;
    if FlushStep(s, s', t, a) {
      FlawlessFlush(s, s', t, a, u);
    } else {
      FlawlessOther(s, s', t, a, u);
    }
  }

  lemma {:induction false} AllFlawless(states: seq<State>, steps: Steps, i: nat, t: nat)
    requires Run(states, steps) && Start(states[0]) && i < |states| && t in states[i].threads
    requires forall j | 0 <= j < |steps| :: steps[j].1 != WriteFlash(false)
    ensures Flawless(states[i], t)
  {
    if i > 0 {
      RunInv(states, steps, i - 1);
      assert Step(states[i - 1], states[i], steps[i - 1].0, steps[i - 1].1);
      StepMoves(states[i - 1], states[i], steps[i - 1].0, steps[i - 1].1);
      hide Inv, Step, Start, Flawless;
      AllFlawless(states, steps, i - 1, t);
      AllFlawless(states, steps, i - 1, steps[i - 1].0);
      FlawlessStep(states[i - 1], states[i], steps[i - 1].0, steps[i - 1].1, t);
    }
  }

  lemma AnsweredRests(s: State, s': State, t: nat, a: Action)
    requires Step(s, s', t, a)
    ensures t in s.threads && !s.threads[t].Returned?
  {
    hide NoHolder, NoExclusive, Broadcast;
  }

  /** An answer stays. */
  lemma {:induction false} AnswerStep(states: seq<State>, steps: Steps, i: nat, t: nat, ok: bool) returns (j: nat)
    requires Run(states, steps) && Start(states[0]) && i < |states| && At(states[i], t, Returned(ok))
    ensures j < i && Answers(states, steps, j, t, ok)
  {
    assert Step(states[i - 1], states[i], steps[i - 1].0, steps[i - 1].1);
    StepMoves(states[i - 1], states[i], steps[i - 1].0, steps[i - 1].1);
    AnsweredRests(states[i - 1], states[i], steps[i - 1].0, steps[i - 1].1);
    hide Step, CountsFollow;
    assert steps[i - 1].0 != t ==> states[i - 1].threads[t] == Returned(ok);
    hide Start;
    if states[i - 1].threads[t].Returned? {
      j := AnswerStep(states, steps, i - 1, t, ok);
    } else {
      j := i - 1;
    }
  }

  /** With no failed flash write, every success is durable. */
  lemma AllDurable(states: seq<State>, steps: Steps, i: nat, t: nat)
    requires Run(states, steps) && Start(states[0]) && i < |states| && At(states[i], t, Returned(true))
    requires forall j | 0 <= j < |steps| :: steps[j].1 != WriteFlash(false)
    ensures Durable(states[i], t)
  {
    var j := AnswerStep(states, steps, i, t, true);
    if steps[j].1.WakeUp? {
      AllFlawless(states, steps, j, t);
      assert Step(states[j], states[j + 1], steps[j].0, steps[j].1);
      hide WriteStep, FlushStep, Start;
      DurableStays(states, steps, j + 1, i, t);
    } else {
      hide Step, Start;
      SuccessIsDurable(states, steps, j, i, t);
    }
  }

  // ------------------------------------------------------------------ when a call fails

  /** The call failed before it reached lc_sync_buf. */
  predicate Off(p: Pc) { p.Failing? || p.AtSyncFailed? }

  ghost predicate FailedBefore(steps: Steps, j: nat, t: nat)
    requires j <= |steps|
  {
    exists i: nat | i < j :: steps[i] == (t, Fail)
  }

  lemma StepFailing(s: State, s': State, t: nat, a: Action, u: nat)
    requires Step(s, s', t, a) && u in s.threads
    ensures u in s'.threads && (s.threads[u].Returned? ==> s'.threads[u].Returned?)
    ensures !s'.threads[u].Returned? ==> (Off(s'.threads[u]) <==> Off(s.threads[u]) || (u == t && a.Fail?))
  {
    StepMoves(s, s', t, a);
    hide NoHolder, NoExclusive, CountsFollow, Broadcast;
    if u != t { hide WriteStep, FlushStep, SyncStep; }
  }

  /** Until it answers, a call is on its way to failure exactly if it has failed. */
  lemma {:induction false} FailedIs(states: seq<State>, steps: Steps, j: nat, t: nat)
    requires Run(states, steps) && Start(states[0]) && j < |states| && t in states[j].threads
    ensures !states[j].threads[t].Returned? ==> (Off(states[j].threads[t]) <==> FailedBefore(steps, j, t))
  {
    if j > 0 {
      assert Step(states[j - 1], states[j], steps[j - 1].0, steps[j - 1].1);
      StepMoves(states[j - 1], states[j], steps[j - 1].0, steps[j - 1].1);
      hide Step, Off, Start, CountsFollow;
      StepFailing(states[j - 1], states[j], steps[j - 1].0, steps[j - 1].1, t);
      FailedIs(states, steps, j - 1, t);
      assert FailedBefore(steps, j, t) <==> FailedBefore(steps, j - 1, t) || steps[j - 1] == (t, Fail);
    }
  }

  /** The last step before j that set syncstatus set it to failure. */
  predicate StatusFailed(steps: Steps, j: nat)
    requires j <= |steps|
  {
    0 < LastSet(steps, j) && !SetTo(steps[LastSet(steps, j) - 1].1)
  }

  lemma StepAnswers(s: State, s': State, t: nat, a: Action, ok: bool)
    requires Step(s, s', t, a) && t in s.threads && !s.threads[t].Returned? && At(s', t, Returned(ok))
    ensures ok == if a.WakeUp? then s.syncstatus else !Off(s.threads[t]) && !a.SyncFailed?
    ensures Off(s.threads[t]) ==> !a.WakeUp?
  {
    hide NoHolder, NoExclusive;
  }

  /** A call answers failure if and only if its write failed, its own sync failed, or it was woken from
      fullcv when the last step to set syncstatus, by whichever thread, had set it to failure. */
  lemma FailureIff(states: seq<State>, steps: Steps, j: nat, t: nat, ok: bool)
    requires Run(states, steps) && Start(states[0]) && j < |steps| && Answers(states, steps, j, t, ok)
    ensures !ok <==> FailedBefore(steps, j, t) || steps[j].1.SyncFailed? || (steps[j].1.WakeUp? && StatusFailed(steps, j))
  {
    assert Step(states[j], states[j + 1], t, steps[j].1);
    hide Step, Start, FailedBefore, Off;
    StepAnswers(states[j], states[j + 1], t, steps[j].1, ok);
    FailedIs(states, steps, j, t);
    if steps[j].1.WakeUp? { WakeAnswers(states, steps, j); }
  }

  lemma PublishedWas(s: State, s': State, t: nat, ok: bool)
    requires Step(s, s', t, Publish(ok))
    ensures t in s.threads && s.threads[t] == Flushed(ok)
  {}

  /** A step in which no device fails. */
  predicate Healthy(a: Action) { a != WriteFlash(false) && !a.SyncFailed? }

  /** With no device failing and no write refused, every call that answers answers success, and its record
      is durable. */
  lemma AllSucceed(states: seq<State>, steps: Steps, i: nat, t: nat)
    requires Run(states, steps) && Start(states[0]) && i < |states|
    requires forall j | 0 <= j < |steps| :: Healthy(steps[j].1) && !steps[j].1.Fail?
    requires t in states[i].threads && states[i].threads[t].Returned?
    ensures states[i].threads[t] == Returned(true) && Durable(states[i], t)
  {
    hide WriteStep, FlushStep, SyncStep, Start, Durable;
    var ok := states[i].threads[t].ok;
    var j := AnswerStep(states, steps, i, t, ok);
    FailureIff(states, steps, j, t, ok);
    if StatusFailed(steps, j) {
      var n := LastSet(steps, j) - 1;
      assert Step(states[n], states[n + 1], steps[n].0, steps[n].1);
      PublishedWas(states[n], states[n + 1], steps[n].0, false);
      AllFlawless(states, steps, n, steps[n].0);
    }
    AllDurable(states, steps, i, t);
  }

  // ------------------------------------------------------------- one sync serves many

  /** How far the last completed sync of this generation got. */
  function SyncedTo(steps: Steps, n: nat): nat
    requires n <= |steps|
  {
    if n == 0 then 0
    else
      match steps[n - 1].1
      case SyncDone(soff) => soff
      case Publish(_) => 0
      case _ => SyncedTo(steps, n - 1)
  }

  /** The records copied or appended since the last NVRAM reset. */
  function Gathered(steps: Steps, n: nat): set<nat>
    requires n <= |steps|
  {
    if n == 0 then {}
    else
      match steps[n - 1].1
      case Copy => Gathered(steps, n - 1) + {steps[n - 1].0}
      case AppendNv(_, _) => Gathered(steps, n - 1) + {steps[n - 1].0}
      case ResetNv => {}
      case _ => Gathered(steps, n - 1)
  }

  /** The records that were in the buffer at a flash write that succeeded. */
  function OnFlash(steps: Steps, n: nat): set<nat>
    requires n <= |steps|
  {
    if n == 0 then {}
    else if steps[n - 1].1 == WriteFlash(true) then OnFlash(steps, n - 1) + Gathered(steps, n - 1)
    else OnFlash(steps, n - 1)
  }

  lemma StepFields(s: State, s': State, t: nat, a: Action)
    requires Step(s, s', t, a)
    ensures s'.syncoff == match a case SyncDone(soff) => soff case Publish(_) => 0 case _ => s.syncoff
    ensures s'.buf == match a
                      case Copy => s.buf + {t}
                      case AppendNv(_, _) => s.buf + {t}
                      case ResetNv => {}
                      case _ => s.buf
    ensures s'.flash == if a == WriteFlash(true) then s.flash + s.buf else s.flash
  {
    hide NoHolder, NoExclusive;
  }

  /** syncoff, the buffer and flash after any run, from its steps alone. */
  lemma {:induction false} FieldsAre(states: seq<State>, steps: Steps, n: nat)
    requires Run(states, steps) && Start(states[0]) && n < |states|
    ensures states[n].syncoff == SyncedTo(steps, n)
    ensures states[n].buf == Gathered(steps, n) && states[n].flash == OnFlash(steps, n)
  {
    hide WriteStep, FlushStep, SyncStep;
    if n > 0 {
      FieldsAre(states, steps, n - 1);
      assert Step(states[n - 1], states[n], steps[n - 1].0, steps[n - 1].1);
      StepFields(states[n - 1], states[n], steps[n - 1].0, steps[n - 1].1);
    }
  }

  /** A call that the last sync covers answers success by its next step, whatever it does, without a sync
      of its own; a call that it does not cover cannot answer yet. */
  lemma SyncServesAll(states: seq<State>, steps: Steps, i: nat, t: nat, off: nat, s': State, a: Action)
    requires Run(states, steps) && Start(states[0]) && i < |states| && At(states[i], t, AtSync(off))
    requires Step(states[i], s', t, a)
    ensures t in s'.threads && (off <= SyncedTo(steps, i) <==> s'.threads[t].Returned?)
    ensures s'.threads[t].Returned? ==> s' == Moved(states[i], t, Returned(true)).(synccount := states[i].synccount - 1)
  {
    FieldsAre(states, steps, i);
    hide SyncedTo, NoHolder, NoExclusive, Broadcast;
  }

  ghost predicate Reaches(s: State, s': State) {
    exists states, steps :: Run(states, steps) && states[0] == s && states[|steps|] == s'
  }

  lemma ReachesSelf(s: State)
    ensures Reaches(s, s)
  {
    assert Run([s], []);
  }

  lemma ReachesStep(s: State, s1: State, s2: State, t: nat, a: Action)
    requires Reaches(s, s1) && Step(s1, s2, t, a)
    ensures Reaches(s, s2)
  {
    hide Step;
    var states, steps :| Run(states, steps) && states[0] == s && states[|steps|] == s1;
    assert Run(states + [s2], steps + [(t, a)]);
  }

  lemma ReachesWrite(s: State, s1: State, s2: State, t: nat, a: Action)
    requires Reaches(s, s1) && WriteStep(s1, s2, t, a)
    ensures Reaches(s, s2)
  {
    hide WriteStep, FlushStep, SyncStep, Reaches;
    ReachesStep(s, s1, s2, t, a);
  }

  lemma ReachesFlush(s: State, s1: State, s2: State, t: nat, a: Action)
    requires Reaches(s, s1) && FlushStep(s1, s2, t, a)
    ensures Reaches(s, s2)
  {
    hide WriteStep, FlushStep, SyncStep, Reaches;
    ReachesStep(s, s1, s2, t, a);
  }

  lemma ReachesSync(s: State, s1: State, s2: State, t: nat, a: Action)
    requires Reaches(s, s1) && SyncStep(s1, s2, t, a)
    ensures Reaches(s, s2)
  {
    hide WriteStep, FlushStep, SyncStep, Reaches;
    ReachesStep(s, s1, s2, t, a);
  }

  // -------------------------------------------------------------- no call is stuck

  /** A step in which no device fails and no sync starts while writes are under way. */
  predicate Orderly(s: State, a: Action) { Healthy(a) && (a.EnterSync? ==> s.iocount == 0) }

  ghost predicate WellRun(states: seq<State>, steps: Steps) {
    Run(states, steps) && forall i | 0 <= i < |steps| :: Orderly(states[i], steps[i].1)
  }

  /** The second state can come about from the first by such steps. */
  ghost predicate ReachesWell(s: State, s': State) {
    exists states: seq<State>, steps: Steps :: WellRun(states, steps) && states[0] == s && states[|steps|] == s'
  }

  lemma ReachesWellSelf(s: State)
    ensures ReachesWell(s, s)
  {
    assert WellRun([s], []);
  }

  lemma WellRunVia(s: State, t: nat, a: Action, states: seq<State>, steps: Steps)
    requires WellRun(states, steps) && Step(s, states[0], t, a) && Orderly(s, a)
    ensures WellRun([s] + states, [(t, a)] + steps)
  {
    hide Step, Orderly;
    var states', steps' := [s] + states, [(t, a)] + steps;
    forall i | 0 <= i < |steps'|
      ensures Step(states'[i], states'[i + 1], steps'[i].0, steps'[i].1) && Orderly(states'[i], steps'[i].1)
    {
      if i > 0 {
        assert Step(states[i - 1], states[i], steps[i - 1].0, steps[i - 1].1) && Orderly(states[i - 1], steps[i - 1].1);
      }
    }
  }

  lemma ReachesWellVia(s: State, s1: State, s2: State, t: nat, a: Action)
    requires Step(s, s1, t, a) && Orderly(s, a) && ReachesWell(s1, s2)
    ensures ReachesWell(s, s2)
  {
    hide Step, Orderly;
    var states: seq<State>, steps: Steps :| WellRun(states, steps) && states[0] == s1 && states[|steps|] == s2;
    WellRunVia(s, t, a, states, steps);
    assert ([s] + states)[|[(t, a)] + steps|] == s2;
  }

  /** How far a call is from its answer at most. */
  function Rank(p: Pc): nat {
    match p
    case Idle => 0
    case Started => 15
    case Shared => 14
    case Copied => 13
    case Exclusive => 13
    case Draining => 12
    case Flushing => 11
    case Flushed(_) => 10
    case Published(_) => 9
    case Fresh => 8
    case Ready(_, _) => 7
    case Failing(_) => 7
    case AtSync(_) => 6
    case AtSyncFailed => 6
    case InSync(_) => 5
    case AwaitFlush => 4
    case Woken => 3
    case Returned(_) => 0
  }

  predicate Active(p: Pc) { !p.Idle? && !p.Returned? }

  /** A step by which its thread comes nearer to its answer. */
  ghost predicate Nearer(s: State, s': State, t: nat, a: Action) {
    && Step(s, s', t, a) && Orderly(s, a) && t in s.threads && t in s'.threads
    && Active(s.threads[t]) && !s'.threads[t].Idle? && Rank(s'.threads[t]) < Rank(s.threads[t])
  }

  /** Nothing holds these up. */
  predicate Free(p: Pc) {
    || p.Shared? || p.Copied? || p.Exclusive? || p.Flushing? || p.Flushed? || p.Published? || p.Fresh? || p.Ready?
    || p.Failing? || p.AtSyncFailed? || p.InSync? || p.Woken?
  }

  lemma FreeWrites(s: State, t: nat) returns (s': State, a: Action)
    requires t in s.threads && s.nvSync <= s.nvOff
    requires var p := s.threads[t];
             p.Shared? || p.Copied? || p.Exclusive? || p.Fresh? || p.Ready? || p.Failing? || p == Published(false)
    ensures Nearer(s, s', t, a)
  {
    var p := s.threads[t];
    if p.Shared? {
      a, s' := Copy, Moved(s, t, Copied).(buf := s.buf + {t});
    } else if p.Published? {
      a, s' := Fail, Moved(s, t, Failing(false));
    } else if p.Ready? || p.Failing? {
      a := Count;
      s' := Moved(s, t, if p.Ready? then AtSync(p.off) else AtSyncFailed).(
              synccount := s.synccount + 1, iocount := s.iocount - 1);
    } else {
      a := AppendNv(1, s.nvSync);
      s' := Moved(s, t, Ready(s.nvOff + 1, p.Copied?)).(
              buf := s.buf + {t}, nvOff := s.nvOff + 1, nvAt := s.nvAt[t := s.nvOff + 1]);
    }
    assert WriteStep(s, s', t, a);
  }

  lemma FreeFlushes(s: State, t: nat) returns (s': State, a: Action)
    requires t in s.threads
    requires var p := s.threads[t]; p.Flushing? || p.Flushed? || p == Published(true)
    ensures Nearer(s, s', t, a)
  {
    var p := s.threads[t];
    if p.Flushing? {
      a, s' := WriteFlash(true), Moved(s, t, Flushed(true)).(flash := s.flash + s.buf);
    } else if p.Flushed? {
      a := Publish(p.ok);
      s' := Broadcast(Moved(s, t, Published(p.ok))).(syncstatus := p.ok, syncoff := 0, buffull := s.buffull - 1);
    } else {
      a, s' := ResetNv, Moved(s, t, Fresh).(nvAt := map[], nvOff := 0, nvSync := 0, buf := {});
    }
    assert FlushStep(s, s', t, a);
  }

  lemma FreeSyncs(s: State, t: nat) returns (s': State, a: Action)
    requires t in s.threads && s.nvSync <= s.nvOff
    requires var p := s.threads[t]; p.AtSyncFailed? || p.Woken? || (p.InSync? && p.off <= s.nvOff)
    ensures Nearer(s, s', t, a) && SyncStep(s, s', t, a)
    ensures s'.synccount == s.synccount - One(InSyncCount(s.threads[t]))
  {
    var p := s.threads[t];
    if p.AtSyncFailed? {
      a, s' := FailedDone, Moved(s, t, Returned(false)).(synccount := s.synccount - 1);
    } else if p.Woken? {
      a, s' := WakeUp, Moved(s, t, Returned(s.syncstatus));
    } else {
      a := SyncDone(s.nvOff);
      s' := Moved(s, t, Returned(true)).(nvSync := s.nvOff, syncoff := s.nvOff, syncstatus := true, insync := false,
                                         synccount := s.synccount - 1);
    }
    assert SyncStep(s, s', t, a);
  }

  lemma FreeMoves(s: State, t: nat) returns (s': State, a: Action)
    requires t in s.threads && Free(s.threads[t]) && s.nvSync <= s.nvOff
    requires s.threads[t].InSync? ==> s.threads[t].off <= s.nvOff
    ensures Nearer(s, s', t, a)
  {
    hide Nearer;
    var p := s.threads[t];
    if p.AtSyncFailed? || p.Woken? || p.InSync? {
      s', a := FreeSyncs(s, t);
    } else if p.Flushing? || p.Flushed? || p == Published(true) {
      s', a := FreeFlushes(s, t);
    } else {
      s', a := FreeWrites(s, t);
    }
  }

  /** A counted call that finds the buffer full leaves lc_sync_buf. */
  lemma LeavesAlone(s: State, v: nat) returns (s': State, a: Action)
    requires v in s.threads && s.threads[v].AtSync? && !s.insync && s.buffull == 1
    ensures Nearer(s, s', v, a)
  {
    if s.syncoff >= s.threads[v].off {
      a, s' := Saved, Moved(s, v, Returned(true)).(synccount := s.synccount - 1);
    } else {
      a, s' := GiveUp, Moved(s, v, AwaitFlush).(synccount := s.synccount - 1);
    }
    assert SyncStep(s, s', v, a);
  }

  lemma SyncersBehind(s: State)
    requires Inv(s)
    ensures s.nvSync <= s.nvOff && forall u | u in s.threads && s.threads[u].InSync? :: s.threads[u].off <= s.nvOff
  {
    hide LockOk, CountsOk, OneSync, OwnOk;
    forall u | u in s.threads && s.threads[u].InSync? ensures s.threads[u].off <= s.nvOff { assert ThreadOk(s, u); }
  }

  lemma CountedSome(s: State) returns (t: nat)
    requires Inv(s) && s.synccount != 0
    ensures t in s.threads && InSyncCount(s.threads[t])
  {
    hide LockOk, OneSync, OffsetsOk, ThreadOk, OwnOk;
    t :| t in Counted(s);
  }

  /** While a flusher waits, it or a counted call can go on. */
  lemma DrainingMoves(s: State, u: nat) returns (s': State, t: nat, a: Action)
    requires Inv(s) && u in s.threads && s.threads[u].Draining?
    ensures Nearer(s, s', t, a)
  {
    FullRaised(s, u);
    SyncersBehind(s);
    hide Inv;
    if s.synccount == 0 {
      t, a, s' := u, Drained, Moved(s, u, Flushing);
      assert FlushStep(s, s', t, a);
    } else {
      hide Nearer;
      if s.insync {
        t := Syncer(s);
        s', a := FreeMoves(s, t);
      } else {
        t := CountedSome(s);
        if s.threads[t].AtSync? { s', a := LeavesAlone(s, t); } else { s', a := FreeMoves(s, t); }
      }
    }
  }

  /** So can whoever holds the container lock, and whoever is about to take it. */
  lemma IoMoves(s: State, u: nat) returns (s': State, t: nat, a: Action)
    requires Inv(s) && u in s.threads && InIo(s.threads[u])
    ensures Nearer(s, s', t, a)
  {
    SyncersBehind(s);
    hide Inv;
    var v := u;
    if s.threads[u].Started? && !NoExclusive(s) {
      v :| v in s.threads && HoldsExclusive(s.threads[v]);
    }
    if s.threads[v].Started? {
      t, a, s' := v, LockShared, Moved(s, v, Shared);
      assert WriteStep(s, s', t, a);
    } else if s.threads[v].Draining? {
      hide Nearer;
      s', t, a := DrainingMoves(s, v);
    } else {
      hide Nearer;
      t := v;
      s', a := FreeMoves(s, t);
    }
  }

  /** A counted call that nobody holds up answers or starts a sync. */
  lemma AloneMoves(s: State, u: nat) returns (s': State, a: Action)
    requires u in s.threads && s.threads[u].AtSync?
    requires s.syncoff >= s.threads[u].off || (!s.insync && s.buffull != 1 && s.iocount == 0)
    ensures Nearer(s, s', u, a)
  {
    var off := s.threads[u].off;
    if s.syncoff >= off {
      a, s' := Saved, Moved(s, u, Returned(true)).(synccount := s.synccount - 1);
    } else {
      a, s' := EnterSync, Moved(s, u, InSync(off)).(insync := true);
    }
    assert SyncStep(s, s', u, a);
  }

  lemma Syncer(s: State) returns (t: nat)
    requires Inv(s) && s.insync
    ensures t in s.threads && s.threads[t].InSync? && s.threads[t].off <= s.nvOff && s.nvSync <= s.nvOff
  {
    SyncersBehind(s);
    hide LockOk, CountsOk, OffsetsOk, ThreadOk, OwnOk;
    t :| t in s.threads && s.threads[t].InSync?;
  }

  lemma InIoSome(s: State) returns (t: nat)
    requires Inv(s) && s.iocount != 0
    ensures t in s.threads && InIo(s.threads[t])
  {
    hide LockOk, OneSync, OffsetsOk, ThreadOk, OwnOk;
    t :| t in Io(s);
  }

  /** A counted call goes on, or one it waits for does. */
  lemma AtSyncMoves(s: State, u: nat) returns (s': State, t: nat, a: Action)
    requires Inv(s) && u in s.threads && s.threads[u].AtSync?
    ensures Nearer(s, s', t, a)
  {
    hide Inv, Nearer;
    t := u;
    if s.syncoff >= s.threads[u].off || (!s.insync && s.buffull != 1 && s.iocount == 0) {
      s', a := AloneMoves(s, u);
    } else if s.insync {
      t := Syncer(s);
      s', a := FreeMoves(s, t);
    } else if s.buffull == 1 {
      s', a := LeavesAlone(s, u);
    } else {
      var v := InIoSome(s);
      s', t, a := IoMoves(s, v);
    }
  }

  /** As long as some call is under way, some call can come nearer to its answer. */
  lemma SomeMoves(s: State, u: nat) returns (s': State, t: nat, a: Action)
    requires Inv(s) && u in s.threads && Active(s.threads[u])
    ensures Nearer(s, s', t, a)
  {
    SyncersBehind(s);
    var p := s.threads[u];
    if p.AwaitFlush? {
      var f := FlusherOf(s, u);
      assert f in Full(s);
      hide Inv, Nearer;
      s', t, a := IoMoves(s, f);
    } else {
      hide Inv, Nearer;
      if p.AtSync? {
        s', t, a := AtSyncMoves(s, u);
      } else if InIo(p) {
        s', t, a := IoMoves(s, u);
      } else {
        t := u;
        s', a := FreeMoves(s, u);
      }
    }
  }

  /** What is left to do for the calls numbered below n. */
  function Work(threads: map<nat, Pc>, n: nat): nat {
    if n == 0 then 0 else Work(threads, n - 1) + if n - 1 in threads then Rank(threads[n - 1]) else 0
  }

  lemma {:induction false} WorkDrops(m: map<nat, Pc>, m': map<nat, Pc>, n: nat, t: nat)
    requires m'.Keys == m.Keys && forall u | u in m :: Rank(m'[u]) <= Rank(m[u])
    requires t in m && Rank(m'[t]) < Rank(m[t])
    ensures Work(m', n) <= Work(m, n) && (t < n ==> Work(m', n) < Work(m, n))
  {
    hide Rank;
    if n > 0 { WorkDrops(m, m', n - 1, t); }
  }

  /** The same calls, each as far as before or further. */
  ghost predicate Further(s: State, s': State) {
    && s'.threads.Keys == s.threads.Keys
    && forall u | u in s.threads :: Rank(s'.threads[u]) <= Rank(s.threads[u]) && (s'.threads[u].Idle? <==> s.threads[u].Idle?)
  }

  lemma NearerFurther(s: State, s': State, t: nat, a: Action)
    requires Nearer(s, s', t, a)
    ensures Further(s, s')
  {
    hide WriteStep, FlushStep, SyncStep, CountsFollow, Orderly;
    StepMoves(s, s', t, a);
  }

  lemma {:induction false} AllFinish(s: State, n: nat) returns (s': State)
    requires Inv(s) && forall t | t in s.threads :: t < n
    ensures ReachesWell(s, s') && Further(s, s') && forall t | t in s'.threads :: !Active(s'.threads[t])
    decreases Work(s.threads, n)
  {
    hide Inv, ReachesWell, Nearer, Work, Rank;
    if u :| u in s.threads && Active(s.threads[u]) {
      var s1, t, a := SomeMoves(s, u);
      NearerFurther(s, s1, t, a);
      NearerIs(s, s1, t, a);
      hide Step;
      StepInv(s, s1, t, a);
      WorkDrops(s.threads, s1.threads, n, t);
      s' := AllFinish(s1, n);
      ReachesWellVia(s, s1, s', t, a);
    } else {
      s' := s;
      ReachesWellSelf(s);
    }
  }

  lemma NearerIs(s: State, s': State, t: nat, a: Action)
    requires Nearer(s, s', t, a)
    ensures Step(s, s', t, a) && Orderly(s, a) && t in s.threads && t in s'.threads && Rank(s'.threads[t]) < Rank(s.threads[t])
  {}

  lemma {:induction false} Numbered(ids: set<nat>) returns (n: nat)
    ensures forall t | t in ids :: t < n
  {
    if ids == {} {
      n := 0;
    } else {
      var t :| t in ids;
      var k := Numbered(ids - {t});
      n := if t < k then k else t + 1;
      assert forall u | u in ids :: u == t || u in ids - {t};
    }
  }

  /** From every reachable state every call can still answer, with no device failing and no sync starting
      while writes are under way: nobody waits for good, whatever has failed before. */
  lemma CallCanReturn(states: seq<State>, steps: Steps, i: nat, t: nat)
    requires Run(states, steps) && Start(states[0]) && i < |states| && t in states[i].threads
    ensures exists s' :: ReachesWell(states[i], s') && t in s'.threads && s'.threads[t].Returned?
  {
    RunInv(states, steps, i);
    var s := states[i];
    hide Inv, ReachesWell, Rank, Start;
    var s1 := if s.threads[t].Idle? then Moved(s, t, Started).(iocount := s.iocount + 1) else s;
    if s.threads[t].Idle? {
      assert WriteStep(s, s1, t, Begin);
      assert Step(s, s1, t, Begin);
      hide Step;
      StepInv(s, s1, t, Begin);
    }
    hide Step;
    var n := Numbered(s1.threads.Keys);
    var s' := AllFinish(s1, n);
    if s.threads[t].Idle? { ReachesWellVia(s, s1, s', t, Begin); }
    assert !Active(s'.threads[t]);
  }

  /** A prefix of such a run that ends where a waiter has just been woken. */
  lemma {:induction false} WokenOnTheWay(states: seq<State>, steps: Steps, n: nat, t: nat)
    requires WellRun(states, steps) && n < |states|
    requires At(states[0], t, AwaitFlush) && !At(states[n], t, AwaitFlush)
    ensures exists s' :: ReachesWell(states[0], s') && At(s', t, Woken)
  {
    hide Step, Orderly;
    if At(states[n - 1], t, AwaitFlush) {
      assert Step(states[n - 1], states[n], steps[n - 1].0, steps[n - 1].1);
      WaiterStep(states[n - 1], states[n], steps[n - 1].0, steps[n - 1].1, t);
      assert WellRun(states[..n + 1], steps[..n]);
      assert ReachesWell(states[0], states[n]);
    } else {
      WokenOnTheWay(states, steps, n - 1, t);
    }
  }

  /** In particular a waiter on fullcv can still be woken. */
  lemma WaiterCanWake(states: seq<State>, steps: Steps, i: nat, t: nat)
    requires Run(states, steps) && Start(states[0]) && i < |states| && At(states[i], t, AwaitFlush)
    ensures exists s' :: ReachesWell(states[i], s') && At(s', t, Woken)
  {
    hide Step, Orderly, Start;
    CallCanReturn(states, steps, i, t);
    var s' :| ReachesWell(states[i], s') && t in s'.threads && s'.threads[t].Returned?;
    var on: seq<State>, acts: Steps :| WellRun(on, acts) && on[0] == states[i] && on[|acts|] == s';
    WokenOnTheWay(on, acts, |acts|, t);
  }

  /** No sync starts while a writer waits to flush the full buffer. */
  lemma SyncOnlyWithRoom(states: seq<State>, steps: Steps, i: nat)
    requires Run(states, steps) && Start(states[0]) && i < |steps| && steps[i].1.EnterSync?
    ensures Full(states[i]) == {}
  {
    RunInv(states, steps, i);
    assert Step(states[i], states[i + 1], steps[i].0, steps[i].1);
    if t :| t in Full(states[i]) { FullRaised(states[i], t); }
  }

  // ------------------------------------------------------------------ a false success

  /** Three calls about to begin. */
  function Three(): State {
    State({}, {}, map[], 0, 0, 0, true, false, 0, 0, 0, map[1 := Idle, 2 := Idle, 3 := Idle])
  }

  /** Call 1 holds the container lock for writing. */
  function Holding(): State {
    Three().(iocount := 1, threads := map[1 := Exclusive, 2 := Idle, 3 := Idle])
  }

  /** Call 1 has its record in unsynced NVRAM. */
  function Waiting(): State {
    State({1}, {}, map[1 := 3], 3, 0, 0, true, false, 0, 0, 1, map[1 := AtSync(3), 2 := Idle, 3 := Idle])
  }

  /** Call 2 holds the container lock and finds no room. */
  function Blocked(): State {
    Waiting().(iocount := 1, threads := map[1 := AtSync(3), 2 := Exclusive, 3 := Idle])
  }

  /** Call 2 has tried and failed to write the buffer to flash, waking call 1. */
  function Refused(): State {
    State({1}, {}, map[1 := 3], 3, 0, 0, false, false, 0, 1, 0, map[1 := Woken, 2 := Published(false), 3 := Idle])
  }

  /** Call 2 has answered failure. */
  function Answered(): State {
    Refused().(iocount := 0, threads := map[1 := Woken, 2 := Returned(false), 3 := Idle])
  }

  /** Call 3 has appended to the buffer and to NVRAM. */
  function Pending(): State {
    State({1, 3}, {}, map[1 := 3, 3 := 4], 4, 0, 0, false, false, 0, 0, 1,
          map[1 := Woken, 2 := Returned(false), 3 := AtSync(4)])
  }

  /** Call 3 has synced the whole blocks before its own end and is syncing the rest. */
  function Overwritten(): State {
    State({1, 3}, {}, map[1 := 3, 3 := 4], 4, 2, 2, true, true, 0, 0, 1,
          map[1 := Woken, 2 := Returned(false), 3 := InSync(4)])
  }

  lemma ReachesHolding()
    ensures Reaches(Three(), Holding())
  {
    hide Reaches;
    var s := Three();
    ReachesSelf(s);
    var s1 := Moved(s, 1, Started).(iocount := 1);
    ReachesWrite(s, s, s1, 1, Begin);
    var s2 := Moved(s1, 1, Shared);
    ReachesWrite(s, s1, s2, 1, LockShared);
    var s3 := Moved(s2, 1, Started);
    ReachesWrite(s, s2, s3, 1, Unshare);
    var s4 := Moved(s3, 1, Exclusive);
    ReachesWrite(s, s3, s4, 1, LockExclusive);
    assert s4 == Holding();
  }

  lemma ReachesWaiting()
    ensures Reaches(Three(), Waiting())
  {
    hide Reaches;
    ReachesHolding();
    var s, s4 := Three(), Holding();
    var s5 := Moved(s4, 1, Ready(3, false)).(buf := s4.buf + {1}, nvOff := 3, nvAt := s4.nvAt[1 := 3]);
    ReachesWrite(s, s4, s5, 1, AppendNv(3, 0));
    var s6 := Moved(s5, 1, AtSync(3)).(iocount := 0, synccount := 1);
    ReachesWrite(s, s5, s6, 1, Count);
    assert s6 == Waiting();
  }

  lemma ReachesBlocked()
    ensures Reaches(Three(), Blocked())
  {
    hide Reaches;
    ReachesWaiting();
    var s, w := Three(), Waiting();
    var s1 := Moved(w, 2, Started).(iocount := 1);
    ReachesWrite(s, w, s1, 2, Begin);
    var s2 := Moved(s1, 2, Shared);
    ReachesWrite(s, s1, s2, 2, LockShared);
    var s3 := Moved(s2, 2, Started);
    ReachesWrite(s, s2, s3, 2, Unshare);
    ReachesWrite(s, s3, Blocked(), 2, LockExclusive);
  }

  lemma ReachesRefused()
    ensures Reaches(Three(), Refused())
  {
    hide Reaches;
    ReachesBlocked();
    var s, s4 := Three(), Blocked();
    var s5 := Moved(s4, 2, Draining).(buffull := 1);
    ReachesFlush(s, s4, s5, 2, StartFlush);
    var s6 := Moved(s5, 1, AwaitFlush).(synccount := 0);
    ReachesSync(s, s5, s6, 1, GiveUp);
    var s7 := Moved(s6, 2, Flushing);
    ReachesFlush(s, s6, s7, 2, Drained);
    var s8 := Moved(s7, 2, Flushed(false));
    ReachesFlush(s, s7, s8, 2, WriteFlash(false));
    ReachesFlush(s, s8, Refused(), 2, Publish(false));
  }

  lemma ReachesAnswered()
    ensures Reaches(Three(), Answered())
  {
    hide Reaches;
    ReachesRefused();
    var s, w := Three(), Refused();
    var s1 := Moved(w, 2, Failing(false));
    ReachesWrite(s, w, s1, 2, Fail);
    var s2 := Moved(s1, 2, AtSyncFailed).(iocount := 0, synccount := 1);
    ReachesWrite(s, s1, s2, 2, Count);
    ReachesSync(s, s2, Answered(), 2, FailedDone);
  }

  lemma ReachesPending()
    ensures Reaches(Three(), Pending())
  {
    hide Reaches;
    ReachesAnswered();
    var s, s3 := Three(), Answered();
    var s4 := Moved(s3, 3, Started).(iocount := 1);
    ReachesWrite(s, s3, s4, 3, Begin);
    var s5 := Moved(s4, 3, Shared);
    ReachesWrite(s, s4, s5, 3, LockShared);
    var s6 := Moved(s5, 3, Copied).(buf := s5.buf + {3});
    ReachesWrite(s, s5, s6, 3, Copy);
    var s7 := Moved(s6, 3, Ready(4, true)).(nvOff := 4, nvAt := s6.nvAt[3 := 4], buf := s6.buf + {3});
    ReachesWrite(s, s6, s7, 3, AppendNv(1, 0));
    var s8 := Moved(s7, 3, AtSync(4)).(iocount := 0, synccount := 1);
    ReachesWrite(s, s7, s8, 3, Count);
    assert s8 == Pending();
  }

  lemma ReachesOverwritten()
    ensures Reaches(Three(), Overwritten())
  {
    hide Reaches;
    ReachesPending();
    var s, s8 := Three(), Pending();
    var s9 := Moved(s8, 3, InSync(4)).(insync := true);
    ReachesSync(s, s8, s9, 3, EnterSync);
    var s10 := Moved(s9, 3, AtSync(4)).(nvSync := 2, syncoff := 2, syncstatus := true, insync := false);
    ReachesSync(s, s9, s10, 3, SyncDone(2));
    var s11 := Moved(s10, 3, InSync(4)).(insync := true);
    ReachesSync(s, s10, s11, 3, EnterSync);
    assert s11 == Overwritten();
  }

  /** The promise does break: after a failed flash write a waiter reads syncstatus late, when another
      call's partial sync has already set it back to success. */
  lemma FalseSuccess() returns (s: State)
    ensures Start(Three()) && Reaches(Three(), s)
    ensures At(s, 1, Returned(true)) && !Durable(s, 1)
  {
    ReachesOverwritten();
    s := Moved(Overwritten(), 1, Returned(true));
    ReachesSync(Three(), Overwritten(), s, 1, WakeUp);
  }
}
