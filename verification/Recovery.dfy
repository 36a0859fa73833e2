/** What a crash leaves behind, and what reopening the container makes of it.

    Recovery flushes the NVRAM buffers to flash, scans every SO in whatever order the
    enumeration delivers them, turns the records of reverted trx into tombstones and
    rebuilds the streams and placement groups. */
module Recovery {
  import opened Keys
  import opened LogSpec
  import opened Flash
  import opened Container
  import opened ContainerProofs

  /** The SO numbers of every stream form an interval. */
  ghost predicate Contiguous(flash: Objects) {
    forall s: nat, i: nat, j: nat, k: nat ::
      i <= j <= k && SoId(s, i) in flash && SoId(s, k) in flash ==> SoId(s, j) in flash
  }

  /** What is needed of a disk to recover the given history from it. */
  ghost predicate Survives(disk: Disk, home: map<Pg, nat>, history: Log) {
    Contiguous(All(disk)) && Represents(All(disk), home, history)
  }

  /** Every state between operations survives a crash. */
  lemma InvSurvives(st: State, history: Log)
    requires Inv(st, history)
    ensures Survives(st.disk, HomeOf(st.pgs), history)
  {
    hide All, Represents, StatusOk, PgsOk, SizeOf, OrderOk;
    forall s: nat, i: nat, j: nat, k: nat |
      i <= j <= k && SoId(s, i) in All(st.disk) && SoId(s, k) in All(st.disk)
      ensures SoId(s, j) in All(st.disk)
    {
      AllStreams(st, SoId(s, i));
      AllStreams(st, SoId(s, k));
      assert StreamOk(st.disk, st.cap, s, st.streams[s]);
      AllIs(st.disk, SoId(s, j));
      AllIs(st.disk, SoId(s, k));
    }
  }

  /** What recovery needs of a disk to succeed. */
  ghost predicate Recoverable(disk: Disk, home: map<Pg, nat>) {
    Contiguous(All(disk)) && ObjectsOk(All(disk)) && OneHome(All(disk), home)
  }

  // ------------------------------------------------- device steps of recovery

  /** The device steps recovery may take: each on one NVRAM buffer or one SO, or giving every
      stream an empty buffer. */
  ghost predicate RecoveryStep(d: Disk, d': Disk, reverted: set<nat>) {
    || (exists s :: NvFlushStep(d, d', s))
    || (exists s :: NvResetStep(d, d', s))
    || (exists id :: RewriteStep(d, d', id, reverted))
    || NvInitStep(d, d')
  }

  ghost predicate NvFlushStep(d: Disk, d': Disk, s: nat) {
    s in d.nv && d.nv[s].NvLive? && d' == d.(flash := d.flash[SoId(s, d.nv[s].seqno) := d.nv[s].recs])
  }

  /** A buffer is reset only when its SO is on flash. */
  ghost predicate NvResetStep(d: Disk, d': Disk, s: nat) {
    && s in d.nv
    && (d.nv[s].NvLive? ==> SoId(s, d.nv[s].seqno) in d.flash && d.flash[SoId(s, d.nv[s].seqno)] == d.nv[s].recs)
    && d' == d.(nv := d.nv[s := NvEmpty])
  }

  /** Every stream gets an empty buffer. */
  ghost predicate NvInitStep(d: Disk, d': Disk) {
    && (forall s | s in d.nv :: d.nv[s].NvEmpty?) && (forall s | s in d'.nv :: d'.nv[s].NvEmpty?)
    && d'.flash == d.flash
  }

  ghost predicate RewriteStep(d: Disk, d': Disk, id: SoId, reverted: set<nat>) {
    && (forall s | s in d.nv :: d.nv[s].NvEmpty?)
    && id in d.flash && d' == d.(flash := d.flash[id := TombLog(d.flash[id], reverted)])
  }

  lemma {:induction false} TombLogTwice(log: Log, reverted: set<nat>)
    ensures TombLog(TombLog(log, reverted), reverted) == TombLog(log, reverted)
  {}

  lemma AllEmpty(d: Disk)
    requires forall s | s in d.nv :: d.nv[s].NvEmpty?
    ensures All(d) == d.flash
  {
    hide All;
    forall id: SoId
      ensures id in All(d) <==> id in d.flash
      ensures id in All(d) ==> All(d)[id] == d.flash[id]
    {
      AllIs(d, id);
    }
  }

  lemma NvStepKeepsAll(d: Disk, d': Disk, s: nat)
    requires NvFlushStep(d, d', s) || NvResetStep(d, d', s)
    ensures All(d') == All(d)
  {
    AllSame(d', d);
  }

  /** No device step of recovery changes what recovery will make of the disk. */
  lemma RecoveryStepKeeps(d: Disk, d': Disk, reverted: set<nat>)
    requires RecoveryStep(d, d', reverted)
    ensures TombAll(All(d'), reverted) == TombAll(All(d), reverted)
    ensures All(d').Keys == All(d).Keys
  {
    hide All, TombLog, TombAll;
    if s :| NvFlushStep(d, d', s) {
      NvStepKeepsAll(d, d', s);
    } else if s :| NvResetStep(d, d', s) {
      NvStepKeepsAll(d, d', s);
    } else if NvInitStep(d, d') {
      AllEmpty(d);
      AllEmpty(d');
    } else {
      var id :| RewriteStep(d, d', id, reverted);
      AllEmpty(d);
      AllEmpty(d');
      RewriteKeeps(d.flash, id, reverted);
    }
  }

  lemma RewriteKeeps(flash: Objects, id: SoId, reverted: set<nat>)
    requires id in flash
    ensures TombAll(flash[id := TombLog(flash[id], reverted)], reverted) == TombAll(flash, reverted)
  {
    hide TombLog;
    var g := flash[id := TombLog(flash[id], reverted)];
    TombLogTwice(flash[id], reverted);
    assert g.Keys == flash.Keys;
    forall j | j in flash ensures TombAll(g, reverted)[j] == TombAll(flash, reverted)[j] {}
  }

  lemma RewriteOneHome(flash: Objects, home: map<Pg, nat>, id: SoId, reverted: set<nat>)
    requires OneHome(flash, home) && id in flash
    ensures OneHome(flash[id := TombLog(flash[id], reverted)], home)
  {
    hide OneHome, OfPg;
    var g := flash[id := TombLog(flash[id], reverted)];
    forall s: nat, p: Pg ensures HomeAt(g, home, s, p) {
      var l := OfPg(LogOf(g, s), p);
      if l != [] {
        InOfPg(LogOf(g, s), p, l[0]);
        InUpTo(g, s, Top(g.Keys), l[0]);
        var i :| 0 <= i < Top(g.Keys) && l[0] in SoAt(g, SoId(s, i));
        assert l[0] in SoAt(flash, SoId(s, i)) by {
          if SoId(s, i) == id { LiveTomb(flash[id], reverted, l[0]); }
        }
        InOfPg(SoAt(flash, SoId(s, i)), p, l[0]);
        SoHome(flash, home, SoId(s, i), p);
      }
    }
    assert OneHome(g, home) by { AllHomes(g, home); }
  }

  lemma AllHomes(flash: Objects, home: map<Pg, nat>)
    requires forall s: nat, p: Pg :: HomeAt(flash, home, s, p)
    ensures OneHome(flash, home)
  {}

  lemma LiveTomb(log: Log, reverted: set<nat>, r: Record)
    requires r in TombLog(log, reverted) && !r.kind.Tombstone?
    ensures r in log
  {
    var i :| 0 <= i < |log| && TombLog(log, reverted)[i] == r;
    assert log[i] in log;
  }

  /** A disk stays recoverable through every step of a recovery. */
  lemma RecoveryStepRecoverable(d: Disk, d': Disk, home: map<Pg, nat>, reverted: set<nat>)
    requires RecoveryStep(d, d', reverted) && Recoverable(d, home)
    ensures Recoverable(d', home)
  {
    hide All, OneHome, Contiguous, ObjectsOk;
    if s :| NvFlushStep(d, d', s) {
      NvStepKeepsAll(d, d', s);
    } else if s :| NvResetStep(d, d', s) {
      NvStepKeepsAll(d, d', s);
    } else if NvInitStep(d, d') {
      AllEmpty(d);
      AllEmpty(d');
    } else {
      var id :| RewriteStep(d, d', id, reverted);
      AllEmpty(d);
      AllEmpty(d');
      RewriteOneHome(d.flash, home, id, reverted);
      RewriteOk(d.flash, id, reverted);
    }
  }

  lemma RewriteOk(flash: Objects, id: SoId, reverted: set<nat>)
    requires Contiguous(flash) && ObjectsOk(flash) && id in flash
    ensures var g := flash[id := TombLog(flash[id], reverted)]; Contiguous(g) && ObjectsOk(g)
  {
    var g := flash[id := TombLog(flash[id], reverted)];
    assert g.Keys == flash.Keys;
  }

  lemma {:induction false} StepsRecoverable(d: Disk, before: seq<Disk>, after: seq<Disk>, home: map<Pg, nat>,
                                            reverted: set<nat>, i: nat)
    requires Steps(d, before, after, reverted) && Recoverable(d, home) && |before| <= i < |after|
    ensures Recoverable(after[i], home)
  {
    hide Recoverable, RecoveryStep;
    if i > |before| { StepsRecoverable(d, before, after, home, reverted, i - 1); }
    RecoveryStepRecoverable(LastDisk(d, |before|, after[..i]), after[i], home, reverted);
  }

  /** The disks recorded in `after` since `before` come from `d` by recovery steps. */
  ghost predicate Steps(d: Disk, before: seq<Disk>, after: seq<Disk>, reverted: set<nat>) {
    |before| <= |after| && after[..|before|] == before &&
    forall i | |before| <= i < |after| :: RecoveryStep(LastDisk(d, |before|, after[..i]), after[i], reverted)
  }

  ghost function LastDisk(d: Disk, from: nat, after: seq<Disk>): Disk {
    if |after| <= from then d else after[|after| - 1]
  }

  lemma StepsExtend(d: Disk, before: seq<Disk>, after: seq<Disk>, reverted: set<nat>, d': Disk)
    requires Steps(d, before, after, reverted)
    requires RecoveryStep(LastDisk(d, |before|, after), d', reverted)
    ensures Steps(d, before, after + [d'], reverted) && LastDisk(d, |before|, after + [d']) == d'
  {
    hide RecoveryStep;
    var after' := after + [d'];
    forall i | |before| <= i < |after'|
      ensures RecoveryStep(LastDisk(d, |before|, after'[..i]), after'[i], reverted)
    {
      if i < |after| {
        assert after'[..i] == after[..i];
      } else {
        assert after'[..i] == after;
      }
    }
  }

  /** However far recovery got before a crash, starting it again rebuilds the same SOs. */
  lemma {:induction false} StepsKeep(d: Disk, before: seq<Disk>, after: seq<Disk>, reverted: set<nat>, i: nat)
    requires Steps(d, before, after, reverted) && |before| <= i < |after|
    ensures TombAll(All(after[i]), reverted) == TombAll(All(d), reverted)
    ensures All(after[i]).Keys == All(d).Keys
  {
    hide All, TombAll, RecoveryStep;
    RecoveryStepKeeps(LastDisk(d, |before|, after[..i]), after[i], reverted);
    if i > |before| { StepsKeep(d, before, after, reverted, i - 1); }
  }

  /** A recovery that is interrupted any number of times, each attempt starting from some
      disk the one before it left, rebuilds the same SOs as an uninterrupted one. */
  lemma {:induction false} RecoveryRestarts(starts: seq<Disk>, attempts: seq<seq<Disk>>, reverted: set<nat>)
    requires |starts| == |attempts| + 1
    requires forall i | 0 <= i < |attempts| :: Steps(starts[i], [], attempts[i], reverted)
    requires forall i | 0 <= i < |attempts| :: starts[i + 1] == starts[i] || starts[i + 1] in attempts[i]
    ensures TombAll(All(starts[|attempts|]), reverted) == TombAll(All(starts[0]), reverted)
  {
    hide All, TombAll, Steps;
    var n := |attempts|;
    if n > 0 {
      RecoveryRestarts(starts[..n], attempts[..n - 1], reverted);
      if starts[n] != starts[n - 1] {
        var j :| 0 <= j < |attempts[n - 1]| && attempts[n - 1][j] == starts[n];
        StepsKeep(starts[n - 1], [], attempts[n - 1], reverted, j);
      }
    }
  }

  // --------------------------------------------------------- scanning the SOs

  /** soscan, on records already turned into tombstones where due. */
  function Scanned(pgs: map<Pg, PgState>, s: nat, log: Log): map<Pg, PgState> {
    if log == [] then pgs
    else ScanStep(Scanned(pgs, s, log[..|log| - 1]), s, log[|log| - 1])
  }

  function ScanStep(pgs: map<Pg, PgState>, s: nat, r: Record): map<Pg, PgState> {
    if r.kind.Tombstone? || !WellFormed(r.key) then pgs
    else
      var p := PgOf(r.key);
      var pg := if p in pgs then pgs[p] else PgState(s, UNKNOWN, 0, false);
      pgs[p := if r.kind.Trim? then pg.(trim := Newest(pg.trim, r.counter)) else pg]
  }

  lemma ScannedSnoc(pgs: map<Pg, PgState>, s: nat, log: Log, r: Record)
    ensures Scanned(pgs, s, log + [r]) == ScanStep(Scanned(pgs, s, log), s, r)
  {
    Snoc(log, r);
  }

  /** What a scan does to the PGs: those with live records exist afterwards, at home where
      they were first found, with the trim position moved to their newest TRIM. */
  lemma {:induction false} ScannedPg(pgs: map<Pg, PgState>, s: nat, log: Log, p: Pg)
    ensures var pgs' := Scanned(pgs, s, log);
            && (p in pgs' <==> p in pgs || OfPg(log, p) != [])
            && (p in pgs' ==>
                  var pg := if p in pgs then pgs[p] else PgState(s, UNKNOWN, 0, false);
                  pgs'[p] == pg.(trim := Newest(pg.trim, TrimOf(OfPg(log, p)))))
  {
    if log != [] {
      var l, r := log[..|log| - 1], log[|log| - 1];
      ScannedPg(pgs, s, l, p);
      TrimOfSnoc(OfPg(l, p), r);
    }
  }

  /** `t` is the newest TRIM of PG `p` among the SOs in `ids`, unknown if there is none. */
  ghost predicate NewestTrim(t: nat, flash: Objects, ids: set<SoId>, p: Pg) {
    && (t != UNKNOWN ==> exists id | id in ids && id in flash :: TrimOf(OfPg(flash[id], p)) == t)
    && forall id | id in ids && id in flash ::
         TrimOf(OfPg(flash[id], p)) == UNKNOWN || (t != UNKNOWN && TrimOf(OfPg(flash[id], p)) <= t)
  }

  /** The PGs as recovery knows them once the SOs in `done` are scanned. */
  ghost predicate PgsScanned(pgs: map<Pg, PgState>, flash: Objects, home: map<Pg, nat>, done: set<SoId>) {
    && (forall p | p in pgs ::
          && p in home && pgs[p].stream == home[p] && !pgs[p].aging
          && NewestTrim(pgs[p].trim, flash, done, p)
          && exists id | id in done && id in flash :: OfPg(flash[id], p) != [])
    && forall id, p: Pg | id in done && id in flash && OfPg(flash[id], p) != [] :: p in pgs
  }

  lemma NewestTrimStep(t: nat, flash: Objects, ids: set<SoId>, id: SoId, p: Pg)
    requires id in flash && NewestTrim(t, flash, ids, p)
    ensures NewestTrim(Newest(t, TrimOf(OfPg(flash[id], p))), flash, ids + {id}, p)
  {
    hide TrimOf, OfPg;
    var t' := Newest(t, TrimOf(OfPg(flash[id], p)));
    if t' != UNKNOWN && t' != TrimOf(OfPg(flash[id], p)) {
      var j :| j in ids && j in flash && TrimOf(OfPg(flash[j], p)) == t;
      assert j in ids + {id};
    } else {
      assert id in ids + {id};
    }
  }

  /** Scanning one more SO, whichever comes next. */
  lemma PgsScannedStep(pgs: map<Pg, PgState>, flash: Objects, home: map<Pg, nat>, done: set<SoId>, id: SoId)
    requires PgsScanned(pgs, flash, home, done) && OneHome(flash, home) && id in flash
    ensures PgsScanned(Scanned(pgs, id.stream, flash[id]), flash, home, done + {id})
  {
    hide TrimOf, OfPg, Scanned, NewestTrim, OneHome;
    var pgs', done' := Scanned(pgs, id.stream, flash[id]), done + {id};
    forall p | p in pgs'
      ensures p in home && pgs'[p].stream == home[p] && !pgs'[p].aging
      ensures NewestTrim(pgs'[p].trim, flash, done', p)
      ensures exists j | j in done' && j in flash :: OfPg(flash[j], p) != []
    {
      ScannedPgStep(pgs, flash, home, done, id, p);
    }
    forall j, p: Pg | j in done' && j in flash && OfPg(flash[j], p) != [] ensures p in pgs' {
      ScannedPg(pgs, id.stream, flash[id], p);
    }
  }

  lemma ScannedPgStep(pgs: map<Pg, PgState>, flash: Objects, home: map<Pg, nat>, done: set<SoId>, id: SoId, p: Pg)
    requires PgsScanned(pgs, flash, home, done) && OneHome(flash, home) && id in flash
    requires p in Scanned(pgs, id.stream, flash[id])
    ensures var pg := Scanned(pgs, id.stream, flash[id])[p];
            && p in home && pg.stream == home[p] && !pg.aging
            && NewestTrim(pg.trim, flash, done + {id}, p)
            && exists j | j in done + {id} && j in flash :: OfPg(flash[j], p) != []
  {
    hide TrimOf, OfPg, Scanned, OneHome;
    ScannedPg(pgs, id.stream, flash[id], p);
    if p in pgs {
      assert NewestTrim(pgs[p].trim, flash, done, p);
      NewestTrimStep(pgs[p].trim, flash, done, id, p);
      var j :| j in done && j in flash && OfPg(flash[j], p) != [];
      assert j in done + {id};
    } else {
      SoHome(flash, home, id, p);
      assert id in done + {id};
      FirstTrim(flash, done, p);
      NewestTrimStep(UNKNOWN, flash, done, id, p);
    }
  }

  /** A PG without live records so far has no TRIM so far. */
  lemma FirstTrim(flash: Objects, done: set<SoId>, p: Pg)
    requires forall id | id in done && id in flash :: OfPg(flash[id], p) == []
    ensures NewestTrim(UNKNOWN, flash, done, p)
  {
    forall id | id in done && id in flash ensures TrimOf(OfPg(flash[id], p)) == UNKNOWN {
      assert OfPg(flash[id], p) == [];
    }
  }

  // ---------------------------------------------------- the order does not matter

  /** The newest TRIM of a stream's log is the newest over its SOs. */
  lemma {:induction false} UpToTrim(flash: Objects, s: nat, n: nat, p: Pg)
    ensures var t := TrimOf(OfPg(UpTo(flash, s, n), p));
            && (t != UNKNOWN ==> exists i | 0 <= i < n :: TrimOf(OfPg(SoAt(flash, SoId(s, i)), p)) == t)
            && forall i | 0 <= i < n ::
                 TrimOf(OfPg(SoAt(flash, SoId(s, i)), p)) == UNKNOWN ||
                 (t != UNKNOWN && TrimOf(OfPg(SoAt(flash, SoId(s, i)), p)) <= t)
  {
    hide TrimOf, OfPg, SoAt;
    if n > 0 {
      var log, so := UpTo(flash, s, n - 1), SoAt(flash, SoId(s, n - 1));
      UpToTrim(flash, s, n - 1, p);
      OfPgConcat(log, so, p);
      TrimOfConcat(OfPg(log, p), OfPg(so, p));
    } else {
      NoTrim();
      assert OfPg([], p) == [] by { NoneOfPg(p); }
    }
  }

  /** After all SOs are scanned, in any order, the trim position of a PG is that of its log. */
  lemma ScannedTrim(flash: Objects, home: map<Pg, nat>, p: Pg, t: nat)
    requires OneHome(flash, home) && p in home && NewestTrim(t, flash, flash.Keys, p)
    ensures t == TrimOf(PgLog(flash, home, p))
  {
    hide TrimOf, OfPg, OneHome;
    var s, n := home[p], Top(flash.Keys);
    UpToTrim(flash, s, n, p);
    NoTrim();
    NoneOfPg(p);
    var t' := TrimOf(OfPg(LogOf(flash, s), p));
    if t != UNKNOWN {
      var id :| id in flash.Keys && TrimOf(OfPg(flash[id], p)) == t;
      SoHome(flash, home, id, p);
      assert id == SoId(s, id.seqno) && SoAt(flash, SoId(s, id.seqno)) == flash[id];
    }
    if t' != UNKNOWN {
      var i :| 0 <= i < n && TrimOf(OfPg(SoAt(flash, SoId(s, i)), p)) == t';
      assert SoId(s, i) in flash.Keys;
    }
  }

  /** The numbering of the streams recovery has found in the SOs in `done`. */
  ghost predicate StreamsScanned(streams: map<nat, Stream>, done: set<SoId>) {
    && (forall s | s in streams :: StreamScanned(s, streams[s], done))
    && forall id | id in done ::
         && id.stream in streams
         && streams[id.stream].seqOldest <= id.seqno < streams[id.stream].seqNext
  }

  ghost predicate StreamScanned(s: nat, x: Stream, done: set<SoId>) {
    && x.seqOldest < x.seqNext
    && SoId(s, x.seqOldest) in done && SoId(s, x.seqNext - 1) in done
    && x.buf == [] && x.bufNexti == 0 && x.newestTrx == 0 && x.agers == []
  }

  /** recover's bookkeeping for one SO: a new stream starts empty. */
  function StreamsWith(streams: map<nat, Stream>, id: SoId): map<nat, Stream> {
    var x := if id.stream in streams then streams[id.stream] else Stream(id.seqno, 0, [], 0, 0, []);
    streams[id.stream := x.(seqNext := if x.seqNext < id.seqno + 1 then id.seqno + 1 else x.seqNext,
                            seqOldest := if id.seqno < x.seqOldest then id.seqno else x.seqOldest)]
  }

  lemma StreamsScannedStep(streams: map<nat, Stream>, done: set<SoId>, id: SoId)
    requires StreamsScanned(streams, done)
    ensures StreamsScanned(StreamsWith(streams, id), done + {id})
  {
    var streams', done' := StreamsWith(streams, id), done + {id};
    assert id == SoId(id.stream, id.seqno);
    forall s | s in streams' ensures StreamScanned(s, streams'[s], done') {
      if s in streams { assert StreamScanned(s, streams[s], done); }
    }
  }

  /** When all SOs are scanned, the numbering is exact. */
  lemma ScannedNumbered(streams: map<nat, Stream>, flash: Objects, s: nat)
    requires StreamsScanned(streams, flash.Keys) && Contiguous(flash) && s in streams
    ensures Numbered(flash, s, streams[s].seqOldest, streams[s].seqNext)
  {
    var x := streams[s];
    assert StreamScanned(s, x, flash.Keys);
    forall i: nat ensures SoId(s, i) in flash <==> x.seqOldest <= i < x.seqNext {
      assert SoId(s, x.seqOldest) in flash && SoId(s, x.seqNext - 1) in flash;
    }
  }

  /** Streams with exact numbering, empty buffers and no status yet. */
  ghost predicate StreamsFound(streams: map<nat, Stream>, flash: Objects) {
    && (forall s | s in streams :: StreamFound(s, streams[s], flash))
    && forall id | id in flash :: id.stream in streams
  }

  ghost predicate StreamFound(s: nat, x: Stream, flash: Objects) {
    && x.seqOldest <= x.seqNext && Numbered(flash, s, x.seqOldest, x.seqNext)
    && x.buf == [] && x.bufNexti == 0 && x.newestTrx == 0 && x.agers == []
  }

  /** The streams that have SOs. */
  function StreamsOn(flash: Objects): set<nat> { set id | id in flash :: id.stream }

  function Larger(a: nat, b: nat): nat { if a < b then b else a }

  lemma {:induction false} OrderLength(order: seq<nat>, ids: set<nat>)
    requires OrderOk(order, ids)
    ensures |order| == |ids|
  {
    if order == [] {
      assert ids == {};
    } else {
      var rest, s := order[1..], order[0];
      assert forall i | 0 <= i < |rest| :: rest[i] == order[i + 1];
      assert forall t :: t in rest <==> t in ids - {s};
      OrderLength(rest, ids - {s});
    }
  }

  /** The scan finds the streams that have SOs, and no others. */
  lemma ScannedStreams(streams: map<nat, Stream>, flash: Objects, order: seq<nat>)
    requires StreamsScanned(streams, flash.Keys) && OrderOk(order, streams.Keys)
    ensures streams.Keys == StreamsOn(flash) && |order| == |StreamsOn(flash)|
  {
    OrderLength(order, streams.Keys);
    hide OrderOk;
    forall s | s in streams ensures s in StreamsOn(flash) { assert StreamScanned(s, streams[s], flash.Keys); }
  }

  lemma ScannedFound(streams: map<nat, Stream>, flash: Objects)
    requires StreamsScanned(streams, flash.Keys) && Contiguous(flash)
    ensures StreamsFound(streams, flash)
  {
    hide Contiguous, Numbered;
    forall s | s in streams ensures StreamFound(s, streams[s], flash) {
      ScannedNumbered(streams, flash, s);
      assert StreamScanned(s, streams[s], flash.Keys);
    }
  }

  /** A fresh stream number has no SOs. */
  lemma FoundNewStream(streams: map<nat, Stream>, flash: Objects, s: nat)
    requires StreamsFound(streams, flash) && s !in streams
    ensures StreamsFound(streams[s := Stream(0, 0, [], 0, 0, [])], flash)
  {
    hide Numbered;
    var streams' := streams[s := Stream(0, 0, [], 0, 0, [])];
    assert Numbered(flash, s, 0, 0) by { NoneNumbered(streams, flash, s); }
    forall t | t in streams' ensures StreamFound(t, streams'[t], flash) {
      if t != s { assert StreamFound(t, streams[t], flash); }
    }
  }

  lemma NoneNumbered(streams: map<nat, Stream>, flash: Objects, s: nat)
    requires StreamsFound(streams, flash) && s !in streams
    ensures Numbered(flash, s, 0, 0)
  {}

  /** A PG that recovery did not meet has no live records. */
  lemma UnmetPg(flash: Objects, home: map<Pg, nat>, pgs: map<Pg, PgState>, p: Pg)
    requires PgsScanned(pgs, flash, home, flash.Keys) && p in home && p !in pgs
    ensures OfPg(LogOf(flash, home[p]), p) == []
  {
    hide NewestTrim, OfPg;
    var s := home[p];
    var l := OfPg(LogOf(flash, s), p);
    if l != [] {
      InOfPg(LogOf(flash, s), p, l[0]);
      InUpTo(flash, s, Top(flash.Keys), l[0]);
      var i :| 0 <= i < Top(flash.Keys) && l[0] in SoAt(flash, SoId(s, i));
      InOfPg(flash[SoId(s, i)], p, l[0]);
      assert SoId(s, i) in flash.Keys && OfPg(flash[SoId(s, i)], p) != [];
    }
  }

  /** The rebuilt PG table agrees with the SOs, whatever order they came in. */
  lemma RebuiltPgs(flash: Objects, home: map<Pg, nat>, pgs: map<Pg, PgState>, p: Pg)
    requires PgsScanned(pgs, flash, home, flash.Keys) && OneHome(flash, home) && p in pgs
    ensures exists id | id in flash :: id.stream == pgs[p].stream
    ensures pgs[p].trim == TrimOf(PgLog(flash, HomeOf(pgs), p))
  {
    hide NewestTrim, OfPg, OneHome, LogOf;
    var id :| id in flash.Keys && id in flash && OfPg(flash[id], p) != [];
    SoHome(flash, home, id, p);
    ScannedTrim(flash, home, p, pgs[p].trim);
  }

  /** The state recovery has rebuilt, before the reclamation status is taken. */
  ghost predicate Rebuilt(st: State, home: map<Pg, nat>) {
    && StreamsOk(st)
    && (forall s | s in st.disk.nv :: st.disk.nv[s].NvEmpty?)
    && StreamsFound(st.streams, st.disk.flash)
    && PgsScanned(st.pgs, st.disk.flash, home, st.disk.flash.Keys)
    && ObjectsOk(st.disk.flash) && OneHome(st.disk.flash, home)
  }

  lemma RebuiltShape(st: State, home: map<Pg, nat>)
    requires Rebuilt(st, home)
    ensures ShapeOk(st)
  {
    hide PgsScanned, OneHome, Numbered, OrderOk;
    forall s | s in st.streams ensures StreamOk(st.disk, st.cap, s, st.streams[s]) {
      assert StreamFound(s, st.streams[s], st.disk.flash);
    }
  }

  lemma RebuiltPgsOk(st: State, home: map<Pg, nat>)
    requires Rebuilt(st, home)
    ensures PgsOk(st) && All(st.disk) == st.disk.flash
  {
    hide OneHome, Numbered, OrderOk, All, PgsScanned;
    AllEmpty(st.disk);
    forall p | p in st.pgs
      ensures st.pgs[p].stream in st.streams
      ensures st.pgs[p].trim == TrimOf(PgLog(st.disk.flash, HomeOf(st.pgs), p))
    {
      RebuiltPgs(st.disk.flash, home, st.pgs, p);
    }
  }

  /** The rebuilt state stands for whatever history its SOs represent. */
  lemma RebuiltRepresents(st: State, home: map<Pg, nat>, history: Log)
    requires Rebuilt(st, home) && Represents(st.disk.flash, home, history)
    ensures Represents(All(st.disk), HomeOf(st.pgs), history)
  {
    hide OneHome, Numbered, OrderOk, All, Represents, StreamsFound, OfPg, NewestTrim;
    AllEmpty(st.disk);
    forall p | p in home && p !in HomeOf(st.pgs)
      ensures OfPg(LogOf(st.disk.flash, home[p]), p) == []
    {
      UnmetPg(st.disk.flash, home, st.pgs, p);
    }
    RepresentsForget(st.disk.flash, home, history, HomeOf(st.pgs));
  }

  // ------------------------------------------------------------ sostatusrecover

  /** No status has been taken for the stream. */
  ghost predicate StatusBlank(st: State, s: nat)
    requires s in st.streams
  {
    st.streams[s].newestTrx == 0 && st.streams[s].agers == [] && PgStatuses(st.pgs, s, [])
  }

  lemma RebuiltBlank(st: State, home: map<Pg, nat>, s: nat)
    requires Rebuilt(st, home) && s in st.streams
    ensures StatusBlank(st, s)
  {
    hide OneHome, Numbered, OrderOk, NewestTrim;
    assert StreamFound(s, st.streams[s], st.disk.flash);
    forall p | p in st.pgs && st.pgs[p].stream == s ensures PgStatusOk(st.pgs[p], OfPg([], p)) {
      NoneOfPg(p);
    }
  }

  /** What stays true while statuses are taken. */
  ghost predicate Opening(st: State) {
    StreamsOk(st) && ShapeOk(st) && PgsOk(st) && ObjectsOk(All(st.disk)) && OneHome(All(st.disk), HomeOf(st.pgs))
  }

  lemma BlankIsStatus(st: State, s: nat)
    requires s in st.streams && StatusBlank(st, s) && st.streams[s].seqOldest >= st.streams[s].seqNext
    ensures StatusOk(st, s)
  {
    assert AgersOf([]) == [] && MaxTrx([]) == 0;
  }

  lemma OpeningElsewhere(st: State, s: nat)
    requires Opening(st) && s in st.streams && st.streams[s].seqOldest < st.streams[s].seqNext
    ensures Elsewhere(st.pgs, s, OldestSo(st.disk, s, st.streams[s]))
  {
    hide All, OfPg, OneHome, PgsOk;
    var id := SoId(s, st.streams[s].seqOldest);
    AllAt(st, s, id.seqno);
    forall p | p in st.pgs && st.pgs[p].stream != s ensures OfPg(SoAt(All(st.disk), id), p) == [] {
      if OfPg(SoAt(All(st.disk), id), p) != [] { SoHome(All(st.disk), HomeOf(st.pgs), id, p); }
    }
  }

  /** Taking the status of one stream leaves the others as they were. */
  lemma StatusTaken(st: State, s: nat, t: nat)
    requires Opening(st) && s in st.streams && t in st.streams && StatusBlank(st, s)
    requires st.streams[s].seqOldest < st.streams[s].seqNext
    ensures var st' := WithStatus(st, s, OldestSo(st.disk, s, st.streams[s]));
            && StatusOk(st', s)
            && (t != s && StatusOk(st, t) ==> StatusOk(st', t))
            && (t != s && StatusBlank(st, t) ==> StatusBlank(st', t))
  {
    hide Opening, Marked, AgersOf, MaxTrx, PgStatuses, Elsewhere;
    var so := OldestSo(st.disk, s, st.streams[s]);
    OpeningElsewhere(st, s);
    MarkedStatuses(st.pgs, s, so, s, so);
    if t != s && StatusOk(st, t) { MarkedStatuses(st.pgs, s, so, t, OldestSo(st.disk, t, st.streams[t])); }
    if t != s && StatusBlank(st, t) { MarkedStatuses(st.pgs, s, so, t, []); }
  }

  lemma OpeningKept(st: State, s: nat)
    requires Opening(st) && s in st.streams
    ensures Opening(WithStatus(st, s, OldestSo(st.disk, s, st.streams[s])))
  {
    hide All, AgersOf, MaxTrx, OfPg, OneHome, OrderOk, Numbered, SizeOf, Marked, TrimOf;
    var so := OldestSo(st.disk, s, st.streams[s]);
    var st' := WithStatus(st, s, so);
    MarkedHome(st.pgs, so);
    MarkedTrims(st.pgs, so);
    assert st'.streams.Keys == st.streams.Keys;
    forall t | t in st'.streams ensures StreamOk(st'.disk, st'.cap, t, st'.streams[t]) {
      assert StreamOk(st.disk, st.cap, t, st.streams[t]);
    }
  }

  lemma MarkedTrims(pgs: map<Pg, PgState>, so: Log)
    ensures Marked(pgs, so).Keys == pgs.Keys
    ensures forall p | p in pgs :: Marked(pgs, so)[p].trim == pgs[p].trim && Marked(pgs, so)[p].stream == pgs[p].stream
  {}

  lemma OpeningRecords(st: State, s: nat, r: Record)
    requires Opening(st) && s in st.streams && st.streams[s].seqOldest < st.streams[s].seqNext
    requires r in OldestSo(st.disk, s, st.streams[s]) && !r.kind.Tombstone? && StatusBlank(st, s)
    ensures RecordOk(r) && PgOf(r.key) in st.pgs && !st.pgs[PgOf(r.key)].aging
  {
    hide All, OfPg, OneHome, PgsOk;
    var id := SoId(s, st.streams[s].seqOldest);
    AllAt(st, s, id.seqno);
    assert r in SoAt(All(st.disk), id) && RecordOk(r);
    var p := PgOf(r.key);
    InOfPg(SoAt(All(st.disk), id), p, r);
    SoHome(All(st.disk), HomeOf(st.pgs), id, p);
    NoneOfPg(p);
    assert PgStatusOk(st.pgs[p], OfPg([], p));
  }
}
