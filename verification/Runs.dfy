/** Whole runs of a container: client calls, crashes at any device step of any call, and
    recoveries that roll back any trx and may themselves crash and start over.  Every read and
    every listing of every run answers what a last-writer-wins map with trim positions answers,
    and no SO name is ever used twice. */
module Runs {
  import opened Keys
  import opened LogSpec
  import opened Flash
  import opened Container
  import opened ContainerProofs
  import opened Recovery
  import opened Lineage
  import opened Rollback
  import opened LogContainer
  import opened Batch
  import opened Enumeration
  import opened RoundRobin

  datatype Call =
    | Put(k: Key, d: seq<byte>, trx: nat)
    | PutMany(objs: seq<Object>, trx: nat)
    | Remove(k: Key, trx: nat)
    | TrimTo(k: Key, trx: nat)
    | Get(k: Key)
    | List(k: Key)

  datatype Answer = Nothing | Read(found: Option<seq<byte>>) | Listed(objs: Log)

  /** A call during which trxoldest returns what `oldest` says.  A crash comes after `steps`
      device steps of the call; the reverted trx are then rolled back by a recovery that
      crashes after `again[0]`, `again[1]`, ... device steps before it gets through. */
  datatype Event =
    | Done(call: Call, oldest: Scans)
    | Crashed(call: Call, oldest: Scans, steps: nat, reverted: set<nat>, again: seq<nat>)

  // ------------------------------------------------------------- the reference

  /** The records a call adds to the history when it runs to its end. */
  function Offered(call: Call): Log {
    match call
    case Put(k, d, trx) => if Acceptable(k, d) then [Record(Write, k, d, trx, CounterOf(k))] else []
    case PutMany(objs, trx) => RecordsFor(objs, trx)[..PutCount(objs, 0, 0, 0)]
    case Remove(k, trx) => if Acceptable(k, []) then [Record(Delete, k, [], trx, CounterOf(k))] else []
    case TrimTo(k, trx) => if Acceptable(k, []) then [Record(Trim, k, [], trx, CounterOf(k))] else []
    case Get(_) => []
    case List(_) => []
  }

  /** Keys that keydecode accepts. */
  predicate Decodable(k: Key) { |k| < BYTES_PER_LOGGING_OBJECT && WellFormed(k) }

  /** What the reference answers, nothing where the key is refused; it says nothing of reads under the all-ones
      counter. */
  ghost predicate Answers(call: Call, answer: Answer, history: Log) {
    && (call.Get? && Decodable(call.k) && CounterOf(call.k) != UNKNOWN ==>
          answer == Read(Lookup(Replay(history), call.k)))
    && (call.List? && Decodable(call.k) ==> answer.Listed? && Listing(answer.objs, history, PgOf(call.k)))
    && (call.Get? && !Decodable(call.k) ==> answer == Read(None))
    && (call.List? && !Decodable(call.k) ==> answer == Listed([]))
  }

  /** How many records of a call are in the history after the event.  A call takes `total` device
      steps; one of a single record lands at the last of them. */
  ghost predicate LandedOk(e: Event, landed: nat, total: nat) {
    && landed <= |Offered(e.call)|
    && (e.Done? || total <= e.steps ==> landed == |Offered(e.call)|)
    && (e.Crashed? && e.steps < total && !e.call.PutMany? ==> landed == 0)
  }

  /** The history before and after an event. */
  ghost predicate Next(h: Log, e: Event, landed: nat, h': Log) {
    && landed <= |Offered(e.call)|
    && var h1 := h + Offered(e.call)[..landed];
       match e
       case Done(_, _) => h' == h1
       case Crashed(_, _, _, reverted, _) =>
         RolledBack(h1, reverted, h') && (NoTrimReverted(h1, reverted) ==> h' == Without(h1, reverted))
  }

  // ----------------------------------------------------------------- one event

  /** A disk in the middle of a call stands for the history and some of the call's records;
      for none of them if the call has only one. */
  ghost predicate CutShort(d: Disk, h: Log, call: Call) {
    exists home: map<Pg, nat>, m: nat :: InTheMiddle(d, h, call, home, m)
  }

  ghost predicate InTheMiddle(d: Disk, h: Log, call: Call, home: map<Pg, nat>, m: nat) {
    m <= |Offered(call)| && (!call.PutMany? ==> m == 0) && Survives(d, home, h + Offered(call)[..m])
  }

  ghost predicate CallSurvives(before: seq<Disk>, after: seq<Disk>, h: Log, call: Call) {
    |before| <= |after| && after[..|before|] == before &&
    forall i | |before| <= i < |after| - 1 :: CutShort(after[i], h, call)
  }

  lemma LandedSurvives(before: seq<Disk>, after: seq<Disk>, home: map<Pg, nat>, h: Log, h': Log, call: Call)
    requires Landed(before, after, home, h, h') && !call.PutMany?
    ensures CallSurvives(before, after, h, call)
  {
    hide Survives, Offered;
    var mid := after[..|after| - 1];
    assert after[..|before|] == mid[..|before|];
    assert h + Offered(call)[..0] == h;
    forall i | |before| <= i < |after| - 1 ensures CutShort(after[i], h, call) {
      assert mid[i] == after[i];
      assert InTheMiddle(after[i], h, call, home, 0);
    }
  }

  lemma BatchCutShort(before: seq<Disk>, after: seq<Disk>, h: Log, call: Call)
    requires BatchSurvives(before, after, h, Offered(call)) && call.PutMany?
    ensures CallSurvives(before, after, h, call)
  {
    hide Survives, Offered;
    forall i | |before| <= i < |after| - 1 ensures CutShort(after[i], h, call) {
      assert PrefixSurvives(after[i], h, Offered(call));
      var home: map<Pg, nat>, m: nat :| m <= |Offered(call)| && Survives(after[i], home, h + Offered(call)[..m]);
      assert InTheMiddle(after[i], h, call, home, m);
    }
  }

  lemma NothingDone(trace: seq<Disk>, h: Log, call: Call)
    ensures CallSurvives(trace, trace, h, call)
  {}

  /** A call that writes one record. */
  method PerformOne(c: Lc, call: Call, oldest: Scans)
    requires c.Valid() && (call.Put? || call.Remove? || call.TrimTo?)
    modifies c
    ensures c.Valid() && c.history == old(c.history) + Offered(call)
    ensures CallSurvives(old(c.trace), c.trace, old(c.history), call)
    ensures Deals(old(c.St()), c.St())
  {
    hide Inv, Landed, Survives, Written, Descends, Dealt, Deals;
    ghost var h, t := c.history, c.trace;
    var status: Status;
    match call {
      case Put(k, d, trx) => status := c.LcWrite(k, d, trx, oldest);
      case Remove(k, trx) => status := c.LcDelete(k, trx, oldest);
      case TrimTo(k, trx) => status := c.LcTrim(k, trx, oldest);
    }
    if status.Ok? {
      LandedSurvives(t, c.trace, HomeOf(c.pgs), h, c.history, call);
    } else {
      NothingDone(t, h, call);
      assert h + [] == h;
    }
  }

  method Perform(c: Lc, call: Call, oldest: Scans) returns (answer: Answer)
    requires c.Valid()
    modifies c
    ensures c.Valid() && c.history == old(c.history) + Offered(call)
    ensures CallSurvives(old(c.trace), c.trace, old(c.history), call)
    ensures Answers(call, answer, old(c.history))
    ensures Deals(old(c.St()), c.St())
  {
    hide Inv, Survives, Replay, Lookup, Descends, Listing, BatchSurvives, CallSurvives, PutAll, Acceptable, AcceptableAll,
         Dealt, Deals;
    ghost var h, t, st := c.history, c.trace, c.St();
    c.HandOk();
    assert h + [] == h;
    answer := Nothing;
    match call {
      case PutMany(objs, trx) =>
        var _, _ := Mput(c, objs, trx, oldest);
        BatchCutShort(t, c.trace, h, call);
        PutAllDeals(st, Offered(call), oldest);
      case Get(k) =>
        var _, found := c.LcRead(k);
        answer := Read(found);
        NothingDone(t, h, call);
      case List(k) =>
        var _, objs := LcEnumerate(c, k);
        answer := Listed(objs);
        NothingDone(t, h, call);
      case _ =>
        PerformOne(c, call, oldest);
    }
  }

  // -------------------------------------------------------------------- reopening

  lemma LaterItself(d: Disk)
    ensures Later(d, d)
  {
    hide All;
    LaterSame(d, d);
  }

  /** One more stretch of disks, from the last one on. */
  lemma Onward(past: seq<Disk>, more: seq<Disk>)
    requires Lineal(past) && Lineal(more) && past != [] && more != [] && past[|past| - 1] == more[0]
    ensures Lineal(past + more)
  {
    hide Later;
    LaterItself(more[0]);
    LinealJoin(past, more);
  }

  lemma SurvivesRecoverable(disk: Disk, home: map<Pg, nat>, history: Log)
    requires Survives(disk, home, history)
    ensures Recoverable(disk, home) && Represents(All(disk), home, history)
  {}

  /** Reopen from a disk, the recovery crashing and starting over as `again` says: attempt i crashes
      after again[i] device steps, or at its end if it has fewer.  `past` lists the disks from the
      given one to the one the container that gets through starts from. */
  method Reopen(disk: Disk, capacity: nat, target: nat, reverted: set<nat>, again: seq<nat>,
                ghost home: map<Pg, nat>, ghost history: Log)
    returns (c: Lc, past: seq<Disk>)
    requires capacity >= MAX_LREC && target > 0 && Survives(disk, home, history)
    ensures fresh(c) && c.Valid() && c.cap == capacity && c.flash == TombAll(All(disk), reverted)
    ensures RolledBack(history, reverted, c.history)
    ensures NoTrimReverted(history, reverted) ==> c.history == Without(history, reverted)
    ensures past != [] && past[0] == disk && past[|past| - 1] == c.start && Lineal(past)
    ensures c.hand == 0 && target <= |c.order|
  {
    hide All, TombAll, Represents, Steps, Inv, Recoverable, Opening, StatusOk, Survives, Descends, Lineal, RolledBack,
         Without, NoTrimReverted;
    var d := disk;
    ghost var left := Left(All(disk), history, reverted);
    SurvivesRecoverable(disk, home, history);
    LeftRepresents(All(disk), home, history, reverted);
    past := [disk];
    LinealOne(disk);
    for i := 0 to |again|
      invariant Recoverable(d, home) && TombAll(All(d), reverted) == TombAll(All(disk), reverted)
      invariant past != [] && past[0] == disk && past[|past| - 1] == d && Lineal(past)
    {
      c := new Lc(d, capacity);
      c.Open(reverted, target, home, left);
      var n := if again[i] < |c.trace| then again[i] else |c.trace|;
      if n > 0 {
        StepsRecoverable(d, [], c.trace, home, reverted, n - 1);
        StepsKeep(d, [], c.trace, reverted, n - 1);
        LinealCut(d, c.trace, c.OnDisk(), n);
        var more := [d] + c.trace[..n];
        Onward(past, more);
        past, d := past + more, c.trace[n - 1];
      }
    }
    c := new Lc(d, capacity);
    c.Open(reverted, target, home, left);
  }

  // ---------------------------------------------------------------------- crashes

  /** The disks of a run: those before the present container, and its own. */
  function Line(past: seq<Disk>, c: Lc): (disks: seq<Disk>)
    reads c
    ensures |disks| == |past| + 1 + |c.trace|
  {
    LineOf(past, c.start, c.trace)
  }

  function LineOf(past: seq<Disk>, start: Disk, trace: seq<Disk>): (disks: seq<Disk>)
    ensures |disks| == |past| + 1 + |trace|
  {
    past + ([start] + trace)
  }

  /** A longer trace makes a longer line. */
  lemma LineGrows(past: seq<Disk>, start: Disk, trace: seq<Disk>, n: nat)
    requires n <= |trace|
    ensures LineOf(past, start, trace[..n]) == LineOf(past, start, trace)[..|past| + 1 + n]
    ensures LineOf(past, start, trace[..n]) <= LineOf(past, start, trace)
  {}

  /** `past` leads up to the disk that the container started from. */
  ghost predicate LeadsTo(past: seq<Disk>, start: Disk) {
    past != [] && past[|past| - 1] == start && Lineal(past)
  }

  /** Where a crash after `steps` device steps of the call finds the disk, and with how many of
      the call's records. */
  lemma CutAt(start: Disk, before: seq<Disk>, after: seq<Disk>, now: Disk, h: Log, call: Call, steps: nat,
              home: map<Pg, nat>, home': map<Pg, nat>)
    returns (home1: map<Pg, nat>, landed: nat)
    requires CallSurvives(before, after, h, call) && Descends(start, after, now)
    requires Survives(LastDisk(start, 0, before), home, h) && Survives(now, home', h + Offered(call))
    ensures var n := if |before| + steps < |after| then |before| + steps else |after|;
            && landed <= |Offered(call)|
            && Survives(LastDisk(start, 0, after[..n]), home1, h + Offered(call)[..landed])
            && (|after| <= |before| + steps ==> landed == |Offered(call)|)
            && (|before| + steps < |after| && !call.PutMany? ==> landed == 0)
  {
    hide Survives, Offered, Lineal;
    var recs := Offered(call);
    if |after| <= |before| + steps {
      home1, landed := home', |recs|;
      assert recs[..landed] == recs && after[..|after|] == after;
    } else if steps == 0 {
      home1, landed := home, 0;
      assert h + recs[..0] == h && after[..|before|] == before;
    } else {
      var i := |before| + steps - 1;
      assert CutShort(after[i], h, call);
      var hm: map<Pg, nat>, m: nat :| InTheMiddle(after[i], h, call, hm, m);
      home1, landed := hm, m;
    }
  }

  /** What is left of a call cut short after `steps` device steps: the disk, and the way to it. */
  method CutCall(c: Lc, past: seq<Disk>, call: Call, oldest: Scans, steps: nat)
    returns (way: seq<Disk>, ghost home: map<Pg, nat>, ghost landed: nat)
    requires c.Valid() && LeadsTo(past, c.start)
    modifies c
    ensures |old(c.trace)| <= |c.trace| && old(c.trace) == c.trace[..|old(c.trace)|]
    ensures var n := if |old(c.trace)| + steps < |c.trace| then |old(c.trace)| + steps else |c.trace|;
            way == LineOf(past, c.start, c.trace[..n]) && Lineal(way)
    ensures landed <= |Offered(call)| && Survives(way[|way| - 1], home, old(c.history) + Offered(call)[..landed])
    ensures |c.trace| <= |old(c.trace)| + steps ==> landed == |Offered(call)|
    ensures |old(c.trace)| + steps < |c.trace| && !call.PutMany? ==> landed == 0
  {
    hide Inv, Survives, Descends, Lineal, Offered, CutShort;
    ghost var h, t, home0 := c.history, c.trace, HomeOf(c.pgs);
    var n := |c.trace| + steps;
    InvSurvives(c.St(), h);
    NowIsLast(c.start, c.trace, c.OnDisk());
    var _ := Perform(c, call, oldest);
    InvSurvives(c.St(), c.history);
    home, landed := CutAt(c.start, t, c.trace, c.OnDisk(), h, call, steps, home0, HomeOf(c.pgs));
    n := if n < |c.trace| then n else |c.trace|;
    LinealCut(c.start, c.trace, c.OnDisk(), n);
    Onward(past, [c.start] + c.trace[..n]);
    way := LineOf(past, c.start, c.trace[..n]);
    assert way[|way| - 1] == ([c.start] + c.trace[..n])[n];
  }

  /** A call cut short after `steps` device steps, and the recovery that follows. */
  method CrashIn(c: Lc, past: seq<Disk>, target: nat, call: Call, oldest: Scans, steps: nat, reverted: set<nat>, again: seq<nat>)
    returns (c': Lc, past': seq<Disk>, ghost landed: nat, ghost h': Log)
    requires c.Valid() && LeadsTo(past, c.start) && target > 0
    modifies c
    ensures fresh(c') && c'.Valid() && c'.cap == c.cap && LeadsTo(past', c'.start) && c'.hand == 0
    ensures landed <= |Offered(call)| && h' == old(c.history) + Offered(call)[..landed]
    ensures RolledBack(h', reverted, c'.history) && (NoTrimReverted(h', reverted) ==> c'.history == Without(h', reverted))
    ensures var total := |c.trace| - |old(c.trace)|;
            && 0 <= total && old(Line(past, c)) <= Line(past, c)
            && Line(past, c)[..|old(Line(past, c))| + if steps < total then steps else total] <= past'
            && (total <= steps ==> landed == |Offered(call)|)
            && (steps < total && !call.PutMany? ==> landed == 0)
  {
    hide Inv, Survives, Descends, Lineal, RolledBack, NoTrimReverted, Without, Offered, LineOf;
    RoomForRecords(c.St(), c.history);
    ghost var h, t := c.history, c.trace;
    var way;
    ghost var home;
    way, home, landed := CutCall(c, past, call, oldest, steps);
    h' := h + Offered(call)[..landed];
    LineGrows(past, c.start, c.trace, |t|);
    LineGrows(past, c.start, c.trace, |way| - |past| - 1);
    var tail;
    c', tail := Reopen(way[|way| - 1], c.cap, target, reverted, again, home, h');
    Onward(way, tail);
    past' := way + tail;
  }

  lemma NowIsLast(start: Disk, trace: seq<Disk>, now: Disk)
    requires Descends(start, trace, now)
    ensures now == LastDisk(start, 0, trace)
  {}

  lemma RoomForRecords(st: State, history: Log)
    requires Inv(st, history)
    ensures st.cap >= MAX_LREC
  {}

  // ------------------------------------------------------------------ whole runs

  /** A name deleted from flash is never on flash again. */
  ghost predicate NeverReused(disks: seq<Disk>) {
    forall i, j, k, id: SoId | 0 <= i <= j <= k < |disks| && id in disks[i].flash && id !in disks[j].flash ::
      id !in disks[k].flash
  }

  lemma LinealNeverReused(disks: seq<Disk>)
    requires Lineal(disks)
    ensures NeverReused(disks)
  {
    hide Later;
    forall i, j, k, id: SoId | 0 <= i <= j <= k < |disks| && id in disks[i].flash && id !in disks[j].flash
      ensures id !in disks[k].flash
    {
      DeletedForGood(disks[i], disks[j], disks[k], id);
    }
  }

  /** The disk stands for the history. */
  ghost predicate Stands(d: Disk, h: Log) { exists home: map<Pg, nat> :: Survives(d, home, h) }

  /** The disk at the start of each event stands for the history at that point. */
  ghost predicate Anchored(disks: seq<Disk>, marks: seq<nat>, histories: seq<Log>) {
    |marks| == |histories| && forall i | 0 <= i < |marks| :: marks[i] < |disks| && Stands(disks[marks[i]], histories[i])
  }

  lemma AnchoredLonger(disks: seq<Disk>, more: seq<Disk>, marks: seq<nat>, histories: seq<Log>, h: Log)
    requires Anchored(disks, marks, histories) && disks <= more && more != [] && Stands(more[|more| - 1], h)
    ensures Anchored(more, marks + [|more| - 1], histories + [h])
  {
    hide Stands;
  }

  lemma StandsNow(c: Lc, past: seq<Disk>)
    requires c.Valid()
    ensures Stands(Line(past, c)[|past| + |c.trace|], c.history)
  {
    hide Inv, Survives, Lineal;
    InvSurvives(c.St(), c.history);
  }

  /** Any sequence of calls, crashes and recoveries: every read and every listing that completes
      answers from the map that replaying the history gives; the history grows by exactly the
      records that landed, less what was rolled back; and no SO name is used twice.  `disks` are
      the disks of the run, one after every device step; event i starts at disks[marks[i]]. */
  method Run(capacity: nat, target: nat, events: seq<Event>)
    returns (c: Lc, answers: seq<Answer>, disks: seq<Disk>,
             ghost histories: seq<Log>, ghost landed: seq<nat>, ghost totals: seq<nat>, ghost marks: seq<nat>,
             ghost states: seq<State>)
    requires capacity >= MAX_LREC && target > 0
    ensures |answers| == |landed| == |totals| == |events| && |histories| == |events| + 1
    ensures c.Valid() && histories[0] == [] && c.history == histories[|events|]
    ensures forall i | 0 <= i < |events| ::
              LandedOk(events[i], landed[i], totals[i]) && Next(histories[i], events[i], landed[i], histories[i + 1])
    ensures forall i | 0 <= i < |events| && events[i].Done? :: Answers(events[i].call, answers[i], histories[i])
    ensures Anchored(disks, marks, histories) && NeverReused(disks)
    ensures disks != [] && disks[|disks| - 1] == c.OnDisk() && marks[|events|] == |disks| - 1
    ensures forall i | 0 <= i < |events| :: Spaced(events[i], marks[i], marks[i + 1], totals[i])
    ensures EvenSinceOpen(events, states) && c.St() == states[|events|]
  {
    hide Inv, Survives, Replay, Lookup, All, TombAll, Without, Descends, Lineal, RolledBack, NoTrimReverted, Stands, Anchored,
         Answers, LandedOk, Next, Offered, NeverReused, Dealing, Deals, EvenSinceOpen;
    EmptySurvives();
    var past: seq<Disk>;
    c, past := Reopen(Disk(map[], map[]), capacity, target, {}, [], map[], []);
    Formatted(c.history);
    StandsNow(c, past);
    answers, histories, landed, totals, marks, states := [], [[]], [], [], [|past| + |c.trace|], [c.St()];
    FirstMark(Line(past, c));
    DealingStart(events, c.St(), c.history);
    for n := 0 to |events|
      invariant |answers| == |landed| == |totals| == n && |histories| == n + 1 && |marks| == n + 1
      invariant fresh(c) && c.Valid() && LeadsTo(past, c.start) && histories[0] == [] && c.history == histories[n]
      invariant forall i | 0 <= i < n ::
                  LandedOk(events[i], landed[i], totals[i]) && Next(histories[i], events[i], landed[i], histories[i + 1])
      invariant forall i | 0 <= i < n && events[i].Done? :: Answers(events[i].call, answers[i], histories[i])
      invariant Anchored(Line(past, c), marks, histories) && marks[n] == |past| + |c.trace|
      invariant forall i | 0 <= i < n :: Spaced(events[i], marks[i], marks[i + 1], totals[i])
      invariant |states| == n + 1 && states[n] == c.St() && Dealing(events[..n], states)
    {
      ghost var line := Line(past, c);
      var answer := Nothing;
      ghost var took, total;
      answer, c, past, took, total := Happen(c, past, target, events[n]);
      StandsNow(c, past);
      DealingMore(events, n, states, c.St(), c.history);
      AnchoredLonger(line, Line(past, c), marks, histories, c.history);
      answers, histories, landed, totals, marks, states :=
        answers + [answer], histories + [c.history], landed + [took], totals + [total], marks + [|past| + |c.trace|],
        states + [c.St()];
    }
    assert events[..|events|] == events;
    DealingEven(events, states);
    disks := Line(past, c);
    WholeLine(c, past);
  }

  // ------------------------------------------------- which streams the PGs of a run get

  /** From state i of a run to state j the container was not reopened. */
  ghost predicate Undisturbed(events: seq<Event>, i: nat, j: nat)
    requires i <= j <= |events|
  {
    forall k | i <= k < j :: events[k].Done?
  }

  /** Each call of the run deals new PGs in turn, and a reopened container starts with the first stream. */
  ghost predicate Dealing(events: seq<Event>, states: seq<State>) {
    && |states| == |events| + 1
    && (forall i | 0 <= i < |states| :: Apart(states[i].order) && states[i].hand < |states[i].order|)
    && forall i | 0 <= i < |events| :: if events[i].Done? then Deals(states[i], states[i + 1]) else states[i + 1].hand == 0
  }

  /** The PGs that came in between two states of a run, with no reopening between them, are spread evenly over
      the streams. */
  ghost predicate EvenSinceOpen(events: seq<Event>, states: seq<State>) {
    && |states| == |events| + 1
    && forall i: nat, j: nat | i <= j <= |events| && Undisturbed(events, i, j) :: Even(states[i], states[j])
  }

  lemma {:induction false} DealsAcross(events: seq<Event>, states: seq<State>, i: nat, j: nat)
    requires Dealing(events, states) && i <= j <= |events| && Undisturbed(events, i, j)
    ensures Deals(states[i], states[j])
  {
    hide Deals;
    if i == j {
      DealtNone(states[i], states[i]);
    } else {
      DealsAcross(events, states, i, j - 1);
      DealsThen(states[i], states[j - 1], states[j]);
    }
  }

  lemma DealingEven(events: seq<Event>, states: seq<State>)
    requires Dealing(events, states)
    ensures EvenSinceOpen(events, states)
  {
    forall i: nat, j: nat | i <= j <= |events| && Undisturbed(events, i, j) ensures Even(states[i], states[j]) {
      DealsAcross(events, states, i, j);
      hide Deals, Even;
      DealsEven(states[i], states[j]);
    }
  }

  lemma OrderIsApart(st: State, history: Log)
    requires Inv(st, history)
    ensures Apart(st.order) && st.hand < |st.order|
  {}

  lemma DealingStart(events: seq<Event>, st: State, history: Log)
    requires Inv(st, history)
    ensures Dealing(events[..0], [st])
  {
    hide Inv;
    OrderIsApart(st, history);
  }

  lemma DealingMore(events: seq<Event>, n: nat, states: seq<State>, st: State, history: Log)
    requires n < |events| && |states| == n + 1 && Dealing(events[..n], states) && Inv(st, history)
    requires if events[n].Done? then Deals(states[n], st) else st.hand == 0
    ensures Dealing(events[..n + 1], states + [st])
  {
    hide Inv, Deals, Apart;
    OrderIsApart(st, history);
    var more := states + [st];
    assert forall i | 0 <= i <= n :: more[i] == states[i];
    assert forall i | 0 <= i < n :: events[..n + 1][i] == events[..n][i];
  }

  /** Device steps between the starts of two events. */
  ghost predicate Spaced(e: Event, mark: nat, mark': nat, total: nat) {
    if e.Done? then mark' == mark + total else mark + (if e.steps < total then e.steps else total) <= mark'
  }

  /** One event of a run. */
  method Happen(c: Lc, past: seq<Disk>, target: nat, e: Event)
    returns (answer: Answer, c': Lc, past': seq<Disk>, ghost landed: nat, ghost total: nat)
    requires c.Valid() && LeadsTo(past, c.start) && target > 0
    modifies c
    ensures (c' == c || fresh(c')) && c'.Valid() && LeadsTo(past', c'.start)
    ensures LandedOk(e, landed, total) && Next(old(c.history), e, landed, c'.history)
    ensures e.Done? ==> Answers(e.call, answer, old(c.history))
    ensures old(Line(past, c)) <= Line(past', c')
    ensures Spaced(e, |past| + |old(c.trace)|, |past'| + |c'.trace|, total)
    ensures if e.Done? then Deals(old(c.St()), c'.St()) else c'.hand == 0
  {
    hide Inv, Descends, Lineal, RolledBack, NoTrimReverted, Answers, CutShort, Without, Deals;
    answer := Nothing;
    ghost var h, t := c.history, c.trace;
    match e {
      case Done(call, oldest) =>
        answer := Perform(c, call, oldest);
        c', past', landed, total := c, past, |Offered(call)|, |c.trace| - |t|;
        assert Offered(call)[..landed] == Offered(call);
      case Crashed(call, oldest, steps, reverted, again) =>
        ghost var h';
        c', past', landed, h' := CrashIn(c, past, target, call, oldest, steps, reverted, again);
        total := |c.trace| - |t|;
    }
  }

  lemma Formatted(h: Log)
    requires NoTrimReverted([], {}) ==> h == Without([], {})
    ensures h == []
  {}

  lemma FirstMark(disks: seq<Disk>)
    requires disks != [] && Stands(disks[|disks| - 1], [])
    ensures Anchored(disks, [|disks| - 1], [[]])
  {
    hide Stands;
  }

  lemma WholeLine(c: Lc, past: seq<Disk>)
    requires c.Valid() && LeadsTo(past, c.start)
    ensures NeverReused(Line(past, c)) && Line(past, c)[|past| + |c.trace|] == c.OnDisk()
  {
    hide Inv, Lineal;
    Onward(past, [c.start] + c.trace);
    LinealNeverReused(Line(past, c));
  }

  /** A formatted device holds the empty history. */
  lemma EmptySurvives()
    ensures Survives(Disk(map[], map[]), map[], [])
  {
    var disk := Disk(map[], map[]);
    assert All(disk) == map[];
    forall s: nat, p: Pg ensures HomeAt(map[], map[], s, p) {
      assert LogOf(map[], s) == UpTo(map[], s, Top({}));
      LogOfIs(map[], s, 0);
    }
  }

  // ---------------------------------------------------- when no TRIM is rolled back

  /** The history after the events, given how much of each call landed. */
  function HistoryOf(events: seq<Event>, landed: seq<nat>): Log
    requires |events| == |landed| && forall i | 0 <= i < |events| :: landed[i] <= |Offered(events[i].call)|
  {
    if events == [] then []
    else
      var n := |events| - 1;
      var h := HistoryOf(events[..n], landed[..n]) + Offered(events[n].call)[..landed[n]];
      if events[n].Done? then h else Without(h, events[n].reverted)
  }

  /** No trx that issued a TRIM is ever reverted. */
  ghost predicate TrimsCommitted(events: seq<Event>) {
    forall i, j | 0 <= i < |events| && 0 <= j < |events| && events[i].call.TrimTo? && events[j].Crashed? ::
      events[i].call.trx !in events[j].reverted
  }

  ghost predicate LandedWithin(events: seq<Event>, landed: seq<nat>) {
    |events| == |landed| && forall i | 0 <= i < |events| :: landed[i] <= |Offered(events[i].call)|
  }

  lemma OfferedTrim(call: Call, r: Record)
    requires r in Offered(call) && r.kind.Trim?
    ensures call.TrimTo? && call.trx == r.trx
  {}

  /** TRIMs in a history come from TRIM calls among the events. */
  lemma {:induction false} TrimsFromCalls(events: seq<Event>, landed: seq<nat>, r: Record)
    requires LandedWithin(events, landed) && r in HistoryOf(events, landed) && r.kind.Trim?
    ensures exists i | 0 <= i < |events| :: events[i].call.TrimTo? && events[i].call.trx == r.trx
  {
    hide Offered;
    var n := |events| - 1;
    var h, recs := HistoryOf(events[..n], landed[..n]), Offered(events[n].call)[..landed[n]];
    if events[n].Crashed? { WithoutSubset(h + recs, events[n].reverted); }
    if r in h {
      TrimsFromCalls(events[..n], landed[..n], r);
      var i :| 0 <= i < n && events[..n][i].call.TrimTo? && events[..n][i].call.trx == r.trx;
      assert events[i].call.TrimTo?;
    } else {
      assert r in recs && r in Offered(events[n].call);
      OfferedTrim(events[n].call, r);
      assert events[n].call.TrimTo?;
    }
  }

  lemma CrashAllowed(events: seq<Event>, landed: seq<nat>, n: nat)
    requires TrimsCommitted(events) && LandedWithin(events, landed) && n < |events| && events[n].Crashed?
    ensures NoTrimReverted(HistoryOf(events[..n], landed[..n]) + Offered(events[n].call)[..landed[n]], events[n].reverted)
  {
    hide Offered, HistoryOf;
    var h, recs := HistoryOf(events[..n], landed[..n]), Offered(events[n].call)[..landed[n]];
    var a := h + recs;
    forall i | 0 <= i < |a| && a[i].kind.Trim? ensures a[i].trx !in events[n].reverted {
      if i < |h| {
        TrimsFromCalls(events[..n], landed[..n], h[i]);
        var j :| 0 <= j < n && events[..n][j].call.TrimTo? && events[..n][j].call.trx == h[i].trx;
        assert events[j].call.TrimTo?;
      } else {
        assert a[i] in Offered(events[n].call);
        OfferedTrim(events[n].call, a[i]);
      }
    }
  }

  /** Then the histories of a run are determined by the events and by what landed. */
  lemma {:induction false} HistoriesAre(events: seq<Event>, landed: seq<nat>, histories: seq<Log>, n: nat)
    requires TrimsCommitted(events) && LandedWithin(events, landed) && |histories| == |events| + 1 && n <= |events|
    requires histories[0] == []
    requires forall i | 0 <= i < |events| :: Next(histories[i], events[i], landed[i], histories[i + 1])
    ensures histories[n] == HistoryOf(events[..n], landed[..n])
  {
    hide Offered, RolledBack, NoTrimReverted, Without;
    if n > 0 {
      HistoriesAre(events, landed, histories, n - 1);
      var e := events[n - 1];
      assert Next(histories[n - 1], e, landed[n - 1], histories[n]);
      assert events[..n][..n - 1] == events[..n - 1] && landed[..n][..n - 1] == landed[..n - 1];
      if e.Crashed? { CrashAllowed(events, landed, n - 1); }
    }
  }
}
