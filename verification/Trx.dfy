/** trxtrack and trxoldest: client threads change their tracked transactions while another thread
    scans for the oldest.  Both hold threadlist_lock shared, so the list is fixed but its fields are
    not; every load and store of a field is a step of its own. */
module Trx {

  import opened Keys
  import opened LogSpec
  import opened Flash
  import opened Container
  import CP = ContainerProofs

  const NONE: nat := WORD - 1   // ~0, no transaction active

  /** Where a client thread is in trxtrack. */
  datatype Tracking = Idle | Shifting(id: nat) | Clearing

  /** trxcurrent and trxprevious, 0 when unused. */
  datatype Client = Client(cur: nat, prev: nat, tracking: Tracking)

  /** Where the scan is: the entry, which field, and what was loaded. */
  datatype Pc =
    | TestCur | CompareCur | TakeCur(seen: nat)
    | TestPrev | ComparePrev | TakePrev(seen: nat)

  datatype Snapshot = Snapshot(clients: seq<Client>, at: nat, pc: Pc, oldest: nat)

  // --------------------------------------------------------------------- steps

  /** Entering or leaving a transaction, one store at a time. */
  ghost predicate TrackStep(s: Snapshot, s': Snapshot, j: nat) {
    && j < |s.clients|
    && exists c' :: ClientStep(s.clients[j], c') && s' == s.(clients := s.clients[j := c'])
  }

  predicate ClientStep(c: Client, c': Client) {
    match c.tracking
    case Idle =>
      // another transaction: previous is stored first
      || (c'.tracking.Shifting? && 0 < c'.tracking.id < NONE && c'.tracking.id != c.cur &&
          c'.cur == c.cur && c'.prev == c.cur)
      // no transaction: current is stored first
      || c' == Client(0, c.prev, Clearing)
    case Shifting(id) => c' == Client(id, c.prev, Idle)
    case Clearing => c' == Client(0, 0, Idle)   // current is 0 already
  }

  /** One load of the scan.  `once` says that the field compared is the value taken; otherwise min
      loads it again. */
  predicate ScanStep(s: Snapshot, s': Snapshot, once: bool) {
    && s.at < |s.clients|
    && var c := s.clients[s.at];
       match s.pc
       case TestCur => s' == s.(pc := if c.cur != 0 then CompareCur else TestPrev)
       case CompareCur => s' == s.(pc := if s.oldest < c.cur then TestPrev else TakeCur(c.cur))
       case TakeCur(seen) => s' == s.(pc := TestPrev, oldest := if once then seen else c.cur)
       case TestPrev => if c.prev != 0 then s' == s.(pc := ComparePrev) else s' == s.(pc := TestCur, at := s.at + 1)
       case ComparePrev =>
         if s.oldest < c.prev then s' == s.(pc := TestCur, at := s.at + 1) else s' == s.(pc := TakePrev(c.prev))
       case TakePrev(seen) =>
         s' == s.(pc := TestCur, at := s.at + 1, oldest := if once then seen else c.prev)
  }

  ghost predicate Step(s: Snapshot, s': Snapshot, once: bool) {
    ScanStep(s, s', once) || exists j :: TrackStep(s, s', j)
  }

  /** A scan from its first load to its last. */
  ghost predicate Scan(states: seq<Snapshot>, once: bool) {
    && states != []
    && states[0].at == 0 && states[0].pc.TestCur? && states[0].oldest == NONE
    && states[|states| - 1].at == |states[|states| - 1].clients|
    && forall i | 0 <= i < |states| - 1 :: Step(states[i], states[i + 1], once)
  }

  /** Thread j has transaction id as its current or previous one. */
  predicate Tracks(s: Snapshot, j: nat, id: nat) {
    j < |s.clients| && (s.clients[j].cur == id || s.clients[j].prev == id)
  }

  ghost predicate TracksThroughout(states: seq<Snapshot>, j: nat, id: nat) {
    forall i | 0 <= i < |states| :: Tracks(states[i], j, id)
  }

  // ------------------------------------------------------------------ invariant

  /** What the scan owes a transaction of thread j that stays tracked. */
  ghost predicate Owes(s: Snapshot, j: nat, id: nat)
    requires Tracks(s, j, id)
  {
    if s.at > j then s.oldest <= id
    else if s.at < j then true
    else match s.pc
         case TestCur => true
         case CompareCur => true
         case TakeCur(seen) => seen == id || s.clients[j].prev == id
         case TestPrev => s.oldest <= id || s.clients[j].prev == id
         case ComparePrev => s.oldest <= id || s.clients[j].prev == id
         case TakePrev(seen) => seen <= id
  }

  /** A value about to be taken is no larger than the one it replaces. */
  predicate Falling(s: Snapshot) {
    match s.pc
    case TakeCur(seen) => seen <= s.oldest
    case TakePrev(seen) => seen <= s.oldest
    case _ => true
  }

  lemma TrackOwes(s: Snapshot, s': Snapshot, k: nat, j: nat, id: nat)
    requires Tracks(s, j, id) && Tracks(s', j, id) && id != 0
    requires TrackStep(s, s', k) && Owes(s, j, id) && Falling(s)
    ensures Owes(s', j, id) && Falling(s')
  {}

  lemma ScanOwes(s: Snapshot, s': Snapshot, j: nat, id: nat)
    requires Tracks(s, j, id) && Tracks(s', j, id) && id != 0
    requires ScanStep(s, s', true) && Owes(s, j, id) && Falling(s)
    ensures Owes(s', j, id) && Falling(s') && s'.oldest <= s.oldest
  {}

  lemma {:induction false} ScanKeeps(states: seq<Snapshot>, j: nat, id: nat, i: nat)
    requires Scan(states, true) && TracksThroughout(states, j, id) && id != 0 && i < |states|
    ensures Tracks(states[i], j, id) && Owes(states[i], j, id) && Falling(states[i])
  {
    if i > 0 {
      ScanKeeps(states, j, id, i - 1);
      var s, s' := states[i - 1], states[i];
      assert Step(s, s', true);
      hide Owes, Falling, Tracks, ScanStep, TrackStep;
      if ScanStep(s, s', true) {
        ScanOwes(s, s', j, id);
      } else {
        var k :| TrackStep(s, s', k);
        TrackOwes(s, s', k, j, id);
      }
    }
  }

  // -------------------------------------------------------------------- main results

  /** trxoldest is no newer than any transaction that stayed tracked while it ran. */
  ghost predicate ScanSafe(once: bool) {
    forall states: seq<Snapshot>, j: nat, id: nat | Scan(states, once) && TracksThroughout(states, j, id) && id != 0 ::
      states[|states| - 1].oldest <= id
  }

  lemma OldestIsOldest(states: seq<Snapshot>, j: nat, id: nat)
    requires Scan(states, true) && TracksThroughout(states, j, id) && id != 0
    ensures states[|states| - 1].oldest <= id
  {
    ScanKeeps(states, j, id, |states| - 1);
  }

  /** Thread 0 stays in transaction 5 while thread 1 leaves 4 for 9 between two loads of one min, and
      then ends 9. */
  function Reloaded(): seq<Snapshot> {
    var a, b := Client(5, 0, Idle), Client(4, 0, Idle);
    [ Snapshot([a, b], 0, TestCur, NONE), Snapshot([a, b], 0, CompareCur, NONE),
      Snapshot([a, b], 0, TakeCur(5), NONE), Snapshot([a, b], 0, TestPrev, 5),
      Snapshot([a, b], 1, TestCur, 5), Snapshot([a, b], 1, CompareCur, 5), Snapshot([a, b], 1, TakeCur(4), 5),
      Snapshot([a, Client(4, 4, Shifting(9))], 1, TakeCur(4), 5), Snapshot([a, Client(9, 4, Idle)], 1, TakeCur(4), 5),
      Snapshot([a, Client(9, 4, Idle)], 1, TestPrev, 9),
      Snapshot([a, Client(0, 4, Clearing)], 1, TestPrev, 9), Snapshot([a, Client(0, 0, Idle)], 1, TestPrev, 9),
      Snapshot([a, Client(0, 0, Idle)], 2, TestCur, 9) ]
  }

  lemma ClientStepIs(s: Snapshot, s': Snapshot, c': Client)
    requires 1 < |s.clients| && ClientStep(s.clients[1], c') && s' == s.(clients := s.clients[1 := c'])
    ensures TrackStep(s, s', 1)
  {}

  lemma ReloadedFirstHalf()
    ensures forall i | 0 <= i < 6 :: ScanStep(Reloaded()[i], Reloaded()[i + 1], false)
  {}

  lemma ReloadedSecondHalf()
    ensures var r := Reloaded();
            && TrackStep(r[6], r[7], 1) && TrackStep(r[7], r[8], 1) && ScanStep(r[8], r[9], false)
            && TrackStep(r[9], r[10], 1) && TrackStep(r[10], r[11], 1) && ScanStep(r[11], r[12], false)
  {
    var r := Reloaded();
    ClientStepIs(r[6], r[7], Client(4, 4, Shifting(9)));
    ClientStepIs(r[7], r[8], Client(9, 4, Idle));
    ClientStepIs(r[9], r[10], Client(0, 4, Clearing));
    ClientStepIs(r[10], r[11], Client(0, 0, Idle));
    hide TrackStep;
  }

  /** Loading the field twice can lose the minimum: transaction 5 is active throughout, and the scan says 9. */
  lemma ReloadLosesMinimum()
    ensures Scan(Reloaded(), false) && TracksThroughout(Reloaded(), 0, 5)
    ensures Reloaded()[|Reloaded()| - 1].oldest == 9
  {
    ReloadedFirstHalf();
    ReloadedSecondHalf();
    hide TrackStep, ScanStep;
  }

  /** The scan is safe exactly when min loads each field once. */
  lemma ScanSafeIff(once: bool)
    ensures ScanSafe(once) <==> once
  {
    if once {
      forall states: seq<Snapshot>, j: nat, id: nat | Scan(states, once) && TracksThroughout(states, j, id) && id != 0
        ensures states[|states| - 1].oldest <= id
      {
        OldestIsOldest(states, j, id);
      }
    } else {
      ReloadLosesMinimum();
      hide Scan, TracksThroughout, Reloaded;
    }
  }

  // ------------------------------------------------ which schedules lose the minimum

  /** What the second load of min finds in the field it compared before. */
  function Reload(s: Snapshot): nat
    requires s.at < |s.clients|
  {
    if s.pc.TakeCur? then s.clients[s.at].cur else s.clients[s.at].prev
  }

  /** min is about to load a field again that was no larger than the minimum when it was compared, and that
      a store has since raised beyond id, while the minimum is not beyond id. */
  ghost predicate Raised(s: Snapshot, id: nat) {
    && s.at < |s.clients| && (s.pc.TakeCur? || s.pc.TakePrev?)
    && s.pc.seen <= s.oldest <= id < Reload(s)
  }

  /** Step i of the scan is such a load, and nothing found later makes up for it. */
  ghost predicate LostAt(states: seq<Snapshot>, i: nat, n: nat, id: nat)
    requires i < n < |states|
  {
    && Raised(states[i], id) && ScanStep(states[i], states[i + 1], false)
    && forall m | i < m <= n :: states[m].oldest > id
  }

  ghost predicate LostBy(states: seq<Snapshot>, n: nat, id: nat)
    requires n < |states|
  {
    exists i: nat | i < n :: LostAt(states, i, n, id)
  }

  /** What the scan owes when it may load twice: a thread's previous transaction is still to be seen, or the
      minimum is low enough already. */
  ghost predicate OwesTwice(s: Snapshot, j: nat, id: nat)
    requires Tracks(s, j, id)
  {
    if s.at > j then s.oldest <= id
    else if s.at < j then true
    else match s.pc
         case TestCur => true
         case CompareCur => true
         case TakeCur(seen) => seen == id || s.clients[j].prev == id
         case TestPrev => s.oldest <= id || s.clients[j].prev == id
         case ComparePrev => s.oldest <= id || s.clients[j].prev == id
         case TakePrev(seen) => s.oldest <= id || (s.clients[j].prev == id && seen <= id)
  }

  lemma TrackOwesTwice(s: Snapshot, s': Snapshot, k: nat, j: nat, id: nat)
    requires Tracks(s, j, id) && Tracks(s', j, id) && id != 0 && TrackStep(s, s', k)
    ensures OwesTwice(s, j, id) ==> OwesTwice(s', j, id)
    ensures Falling(s) ==> Falling(s')
    ensures s'.oldest == s.oldest
  {}

  /** One step of the scan: it still owes nothing, or it has just lost the transaction, or it had lost it
      before and finds nothing lower. */
  lemma ScanOwesTwice(s: Snapshot, s': Snapshot, j: nat, id: nat)
    requires Tracks(s, j, id) && Tracks(s', j, id) && id != 0 && ScanStep(s, s', false) && Falling(s)
    ensures Falling(s')
    ensures OwesTwice(s, j, id) ==> OwesTwice(s', j, id) || (Raised(s, id) && s'.oldest > id)
    ensures !OwesTwice(s, j, id) ==> OwesTwice(s', j, id) || s'.oldest > id
  {}

  lemma {:induction false} OwesOrLost(states: seq<Snapshot>, j: nat, id: nat, n: nat)
    requires Scan(states, false) && TracksThroughout(states, j, id) && id != 0 && n < |states|
    ensures Tracks(states[n], j, id) && Falling(states[n])
    ensures OwesTwice(states[n], j, id) || LostBy(states, n, id)
  {
    if n > 0 {
      OwesOrLost(states, j, id, n - 1);
      var s, s' := states[n - 1], states[n];
      assert Step(s, s', false);
      hide OwesTwice, Falling, Tracks, ScanStep, TrackStep, Raised;
      if ScanStep(s, s', false) {
        ScanOwesTwice(s, s', j, id);
        if !OwesTwice(s', j, id) { LostStep(states, j, id, n); }
      } else {
        var k :| TrackStep(s, s', k);
        TrackOwesTwice(s, s', k, j, id);
        if !OwesTwice(s, j, id) { LostLonger(states, n, id); }
      }
    }
  }

  lemma LostLonger(states: seq<Snapshot>, n: nat, id: nat)
    requires 0 < n < |states| && LostBy(states, n - 1, id) && states[n].oldest > id
    ensures LostBy(states, n, id)
  {
    hide Raised, ScanStep;
    var i: nat :| i < n - 1 && LostAt(states, i, n - 1, id);
    assert LostAt(states, i, n, id);
  }

  lemma LostStep(states: seq<Snapshot>, j: nat, id: nat, n: nat)
    requires 0 < n < |states| && ScanStep(states[n - 1], states[n], false) && states[n].oldest > id
    requires Raised(states[n - 1], id) || LostBy(states, n - 1, id)
    ensures LostBy(states, n, id)
  {
    if LostBy(states, n - 1, id) {
      LostLonger(states, n, id);
    } else {
      assert LostAt(states, n - 1, n, id);
    }
  }

  /** A scan that loads twice returns more than a transaction that stayed tracked, if and only if some min
      met a store between its two loads that raised the field beyond the transaction, when the minimum was
      not beyond it, and nothing later brought the minimum back. */
  lemma LosesIff(states: seq<Snapshot>, j: nat, id: nat)
    requires Scan(states, false) && TracksThroughout(states, j, id) && id != 0
    ensures states[|states| - 1].oldest > id <==> LostBy(states, |states| - 1, id)
  {
    OwesOrLost(states, j, id, |states| - 1);
  }

  // ------------------------------------------------------------ what the scan can return

  /** By state n some thread has had id as its current or previous transaction. */
  ghost predicate SeenBy(states: seq<Snapshot>, n: nat, id: nat)
    requires n < |states|
  {
    exists i: nat, j: nat | i <= n :: Tracks(states[i], j, id)
  }

  /** A field of thread j was in use in state i and is not in state m. */
  ghost predicate DroppedAt(states: seq<Snapshot>, i: nat, m: nat, j: nat)
    requires i < m < |states|
  {
    && j < |states[i].clients| && j < |states[m].clients|
    && var c, c' := states[i].clients[j], states[m].clients[j];
       (c.cur != 0 && c'.cur == 0) || (c.prev != 0 && c'.prev == 0)
  }

  /** By state n some thread has ended a transaction since the scan began. */
  ghost predicate Dropped(states: seq<Snapshot>, n: nat)
    requires n < |states|
  {
    exists i: nat, m: nat, j: nat | i < m <= n :: DroppedAt(states, i, m, j)
  }

  /** A value the scan may end with: no transaction, one that a thread had, or 0 where one was ended. */
  ghost predicate Genuine(states: seq<Snapshot>, n: nat, id: nat)
    requires n < |states|
  {
    id == NONE || (id != 0 && SeenBy(states, n, id)) || (id == 0 && Dropped(states, n))
  }

  predicate AtCur(pc: Pc) { pc.CompareCur? || pc.TakeCur? }
  predicate AtPrev(pc: Pc) { pc.ComparePrev? || pc.TakePrev? }

  /** The field the scan is at was in use when it was tested. */
  ghost predicate TestedAt(states: seq<Snapshot>, i: nat, n: nat)
    requires i <= n < |states|
  {
    states[n].at < |states[i].clients| &&
    var c := states[i].clients[states[n].at];
    (AtCur(states[n].pc) ==> c.cur != 0) && (AtPrev(states[n].pc) ==> c.prev != 0)
  }

  ghost predicate Tested(states: seq<Snapshot>, n: nat)
    requires n < |states|
  {
    AtCur(states[n].pc) || AtPrev(states[n].pc) ==> exists i: nat | i < n :: TestedAt(states, i, n)
  }

  ghost predicate Sourced(states: seq<Snapshot>, n: nat)
    requires n < |states|
  {
    && Genuine(states, n, states[n].oldest) && Tested(states, n)
    && (states[n].pc.TakeCur? || states[n].pc.TakePrev? ==> Genuine(states, n, states[n].pc.seen))
  }

  lemma GenuineLater(states: seq<Snapshot>, n: nat, id: nat)
    requires n + 1 < |states| && Genuine(states, n, id)
    ensures Genuine(states, n + 1, id)
  {
    hide DroppedAt, Tracks;
  }

  /** The field under a scan that has found it in use: its value now is one the scan may end with. */
  lemma FieldGenuine(states: seq<Snapshot>, n: nat)
    requires n < |states| && Tested(states, n) && states[n].at < |states[n].clients|
    ensures AtCur(states[n].pc) ==> Genuine(states, n, states[n].clients[states[n].at].cur)
    ensures AtPrev(states[n].pc) ==> Genuine(states, n, states[n].clients[states[n].at].prev)
  {
    var s := states[n];
    if AtCur(s.pc) || AtPrev(s.pc) {
      var i: nat :| i < n && TestedAt(states, i, n);
      var id := if AtCur(s.pc) then s.clients[s.at].cur else s.clients[s.at].prev;
      if id == 0 {
        assert DroppedAt(states, i, n, s.at);
      } else {
        assert Tracks(s, s.at, id);
      }
    }
  }

  /** A step that stays at the same field leaves it tested. */
  lemma TestedLater(states: seq<Snapshot>, n: nat)
    requires n + 1 < |states| && Tested(states, n) && states[n + 1].at == states[n].at
    requires AtCur(states[n].pc) == AtCur(states[n + 1].pc) && AtPrev(states[n].pc) == AtPrev(states[n + 1].pc)
    ensures Tested(states, n + 1)
  {
    if i: nat :| i < n && TestedAt(states, i, n) { assert TestedAt(states, i, n + 1); }
  }

  lemma ScanSourced(states: seq<Snapshot>, n: nat, once: bool)
    requires n + 1 < |states| && Sourced(states, n) && ScanStep(states[n], states[n + 1], once)
    ensures Sourced(states, n + 1)
  {
    var s, s' := states[n], states[n + 1];
    var c := s.clients[s.at];
    FieldGenuine(states, n);
    GenuineLater(states, n, s.oldest);
    if AtCur(s.pc) { GenuineLater(states, n, c.cur); }
    if AtPrev(s.pc) { GenuineLater(states, n, c.prev); }
    if s.pc.TakeCur? || s.pc.TakePrev? { GenuineLater(states, n, s.pc.seen); }
    if s.pc.TestCur? || s.pc.TestPrev? {
      assert AtCur(s'.pc) || AtPrev(s'.pc) ==> TestedAt(states, n, n + 1);
    } else if AtCur(s'.pc) || AtPrev(s'.pc) {
      TestedLater(states, n);
    }
    hide Genuine;
  }

  lemma TrackSourced(states: seq<Snapshot>, n: nat, k: nat)
    requires n + 1 < |states| && Sourced(states, n) && TrackStep(states[n], states[n + 1], k)
    ensures Sourced(states, n + 1)
  {
    var s := states[n];
    GenuineLater(states, n, s.oldest);
    if s.pc.TakeCur? || s.pc.TakePrev? { GenuineLater(states, n, s.pc.seen); }
    TestedLater(states, n);
    hide Genuine, Tested;
  }

  lemma {:induction false} ScanSources(states: seq<Snapshot>, once: bool, n: nat)
    requires Scan(states, once) && n < |states|
    ensures Sourced(states, n)
  {
    if n > 0 {
      ScanSources(states, once, n - 1);
      assert Step(states[n - 1], states[n], once);
      hide Sourced, ScanStep, TrackStep;
      if ScanStep(states[n - 1], states[n], once) {
        ScanSourced(states, n - 1, once);
      } else {
        var k :| TrackStep(states[n - 1], states[n], k);
        TrackSourced(states, n - 1, k);
      }
    }
  }

  /** trxoldest returns no transaction, or one that some thread had while it ran, or 0 if some thread ended
      one while it ran; in one load or two. */
  lemma FoundIsGenuine(states: seq<Snapshot>, once: bool)
    requires Scan(states, once)
    ensures Genuine(states, |states| - 1, states[|states| - 1].oldest)
  {
    ScanSources(states, once, |states| - 1);
  }

  /** No thread has a transaction, at any state of the scan. */
  ghost predicate NoneTracked(states: seq<Snapshot>) {
    forall i: nat, j: nat | i < |states| && j < |states[i].clients| ::
      states[i].clients[j].cur == 0 && states[i].clients[j].prev == 0
  }

  lemma NothingFound(states: seq<Snapshot>, once: bool)
    requires Scan(states, once) && NoneTracked(states)
    ensures states[|states| - 1].oldest == NONE
  {
    FoundIsGenuine(states, once);
    hide Scan;
  }

  /** No thread enters or leaves a transaction during the scan. */
  ghost predicate Still(states: seq<Snapshot>) {
    forall i | 0 <= i < |states| :: states[i].clients == states[0].clients
  }

  lemma {:induction false} StillSeen(states: seq<Snapshot>, once: bool, n: nat)
    requires Scan(states, once) && Still(states) && n < |states|
    ensures states[n].pc.TakeCur? || states[n].pc.TakePrev? ==>
              states[n].at < |states[n].clients| && states[n].pc.seen == Reload(states[n])
  {
    if n > 0 {
      StillSeen(states, once, n - 1);
      assert Step(states[n - 1], states[n], once);
      assert states[n].clients == states[n - 1].clients == states[0].clients;
      hide Scan, Still;
      if !ScanStep(states[n - 1], states[n], once) {
        var k :| TrackStep(states[n - 1], states[n], k);
      }
    }
  }

  /** Then it returns exactly the smallest current or previous transaction, or no transaction if there is
      none, in one load or two. */
  lemma StillIsMinimum(states: seq<Snapshot>, once: bool)
    requires Scan(states, once) && Still(states)
    ensures var found := states[|states| - 1].oldest;
            && (found == NONE || (found != 0 && exists j: nat :: Tracks(states[0], j, found)))
            && forall j: nat, id: nat | id != 0 && Tracks(states[0], j, id) :: found <= id
  {
    var found := states[|states| - 1].oldest;
    FoundIsGenuine(states, once);
    if found != NONE && found != 0 {
      var i: nat, j: nat :| i < |states| && Tracks(states[i], j, found);
      assert Tracks(states[0], j, found);
    }
    forall j: nat, id: nat | id != 0 && Tracks(states[0], j, id) ensures found <= id {
      StillBelow(states, once, j, id);
    }
  }

  lemma StillBelow(states: seq<Snapshot>, once: bool, j: nat, id: nat)
    requires Scan(states, once) && Still(states) && id != 0 && Tracks(states[0], j, id)
    ensures states[|states| - 1].oldest <= id
  {
    assert TracksThroughout(states, j, id);
    if once {
      OldestIsOldest(states, j, id);
    } else {
      LosesIff(states, j, id);
      if LostBy(states, |states| - 1, id) {
        var n := |states| - 1;
        var i: nat :| i < n && LostAt(states, i, n, id);
        StillSeen(states, once, i);
      }
    }
  }

  // ----------------------------------------------------------------------- the scan ends

  /** How many of a thread's six loads are behind the scan. */
  function Behind(pc: Pc): nat {
    match pc
    case TestCur => 0
    case CompareCur => 1
    case TakeCur(_) => 2
    case TestPrev => 3
    case ComparePrev => 4
    case TakePrev(_) => 5
  }

  ghost predicate InScan(s: Snapshot) { s.at < |s.clients| || (s.at == |s.clients| && s.pc.TestCur?) }

  function LoadsLeft(s: Snapshot): nat
    requires InScan(s)
  {
    6 * (|s.clients| - s.at) - Behind(s.pc)
  }

  /** A scan short of its end can go on, and every load of it is one of at most six for each thread; what the
      threads do meanwhile neither takes it back nor stops it. */
  lemma ScanAdvances(s: Snapshot, once: bool)
    requires InScan(s)
    ensures s.at < |s.clients| ==> exists s' :: ScanStep(s, s', once)
    ensures forall s' | ScanStep(s, s', once) :: InScan(s') && s'.clients == s.clients && LoadsLeft(s') < LoadsLeft(s)
    ensures forall s', j: nat | TrackStep(s, s', j) :: InScan(s') && LoadsLeft(s') == LoadsLeft(s)
  {
    if s.at < |s.clients| {
      var c := s.clients[s.at];
      var s' := match s.pc
                case TestCur => s.(pc := if c.cur != 0 then CompareCur else TestPrev)
                case CompareCur => s.(pc := if s.oldest < c.cur then TestPrev else TakeCur(c.cur))
                case TakeCur(seen) => s.(pc := TestPrev, oldest := if once then seen else c.cur)
                case TestPrev => if c.prev != 0 then s.(pc := ComparePrev) else s.(pc := TestCur, at := s.at + 1)
                case ComparePrev =>
                  if s.oldest < c.prev then s.(pc := TestCur, at := s.at + 1) else s.(pc := TakePrev(c.prev))
                case TakePrev(seen) => s.(pc := TestCur, at := s.at + 1, oldest := if once then seen else c.prev);
      assert ScanStep(s, s', once);
    }
  }

  // --------------------------------------------------------------- how long a transaction is tracked

  /** What one thread's fields go through. */
  ghost predicate Path(cs: seq<Client>) { forall i | 0 <= i < |cs| - 1 :: ClientStep(cs[i], cs[i + 1]) }

  /** How many other transactions the thread has begun in its first n steps. */
  function Begun(cs: seq<Client>, n: nat): nat
    requires n < |cs|
  {
    if n == 0 then 0 else Begun(cs, n - 1) + if cs[n - 1].tracking.Idle? && cs[n].tracking.Shifting? then 1 else 0
  }

  predicate Ended(cs: seq<Client>, n: nat)
    requires n < |cs|
  {
    exists i | 0 <= i <= n :: cs[i].tracking.Clearing?
  }

  /** A thread in transaction id: until it ends or begins a second other transaction, id is its current or
      previous one at every store; the first other transaction makes it the previous one, the second drops it. */
  lemma {:induction false} TrackedUntil(cs: seq<Client>, n: nat, id: nat)
    requires Path(cs) && n < |cs| && cs[0].tracking.Idle? && cs[0].cur == id && !Ended(cs, n)
    ensures Begun(cs, n) == 0 ==> cs[n] == cs[0]
    ensures Begun(cs, n) == 1 ==> cs[n].prev == id && (cs[n].tracking.Shifting? ==> cs[n].cur == id)
    ensures Begun(cs, n) == 2 && cs[n].tracking.Shifting? ==> cs[n].prev == cs[n].cur != id
    ensures cs[n].tracking.Shifting? ==> cs[n].tracking.id != cs[n].cur && 1 <= Begun(cs, n)
    ensures cs[n].tracking.Idle? && Begun(cs, n) == 1 ==> cs[n].cur != id
  {
    if n > 0 {
      assert ClientStep(cs[n - 1], cs[n]);
      assert !Ended(cs, n - 1);
      TrackedUntil(cs, n - 1, id);
      assert !cs[n].tracking.Clearing?;
    }
  }

  /** A thread that ends its transaction has none when it is done. */
  lemma EndedHasNone(c: Client, c': Client, c'': Client)
    requires ClientStep(c, c') && ClientStep(c', c'') && c'.tracking.Clearing?
    ensures c'' == Client(0, 0, Idle) && c'.cur == 0 && c'.prev == c.prev
  {}

  /** What a scan found. */
  function Found(states: seq<Snapshot>): nat { if states == [] then NONE else states[|states| - 1].oldest }

  /** No SO holding a record of a transaction that stays tracked is deleted by a reclamation whose every
      round acts on a scan of its own. */
  lemma TrackedSpared(scans: Look -> seq<Snapshot>, j: nat, id: nat, st: State, stream: nat, history: Log,
                      so: SoId, r: Record)
    requires id != 0 && forall look :: Scan(scans(look), true) && TracksThroughout(scans(look), j, id)
    requires Inv(st, history) && stream in st.streams
    requires so in st.disk.flash && r in st.disk.flash[so] && !r.kind.Tombstone? && r.trx == id
    ensures so in Reclaimed(st, stream, look => Found(scans(look))).disk.flash
  {
    var oldest: Scans := look => Found(scans(look));
    forall look ensures oldest(look) <= id { OldestIsOldest(scans(look), j, id); }
    hide Inv, Scan, TracksThroughout, Reclaimed;
    if so !in Reclaimed(st, stream, oldest).disk.flash {
      CP.ReclaimedSparesActive(st, stream, oldest, history, so, r, id);
    }
  }
}
