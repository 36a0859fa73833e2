/** Every step of a write keeps the container invariant, and between any two device
    steps the disk stands for the history before the write or the one after it. */
module ContainerProofs {
  import opened Keys
  import opened LogSpec
  import opened Flash
  import opened Container

  // ------------------------------------------------------------ the overlay

  lemma AllAt(st: State, s: nat, i: nat)
    requires StreamsOk(st) && ShapeOk(st) && s in st.streams
    ensures SoAt(All(st.disk), SoId(s, i)) ==
            if i == st.streams[s].seqNext then st.streams[s].buf else SoAt(st.disk.flash, SoId(s, i))
    ensures SoId(s, i) in All(st.disk) ==> st.streams[s].seqOldest <= i <= st.streams[s].seqNext
    ensures i < st.streams[s].seqNext ==> (SoId(s, i) in All(st.disk) <==> SoId(s, i) in st.disk.flash)
  {
    assert StreamOk(st.disk, st.cap, s, st.streams[s]);
  }

  lemma AllStreams(st: State, id: SoId)
    requires StreamsOk(st) && ShapeOk(st) && id in All(st.disk)
    ensures id.stream in st.streams
    ensures st.streams[id.stream].seqOldest <= id.seqno <= st.streams[id.stream].seqNext
  {
    assert id == SoId(id.stream, id.seqno);
    AllAt(st, id.stream, id.seqno);
  }

  /** The log of a stream is its SOs in order, then the open buffer. */
  lemma StreamLogIs(st: State, s: nat)
    requires StreamsOk(st) && ShapeOk(st) && s in st.streams
    ensures LogOf(All(st.disk), s) == UpTo(st.disk.flash, s, st.streams[s].seqNext) + st.streams[s].buf
  {
    hide All;
    var n := st.streams[s].seqNext;
    forall id | id in All(st.disk) && id.stream == s ensures id.seqno < n + 1 { AllStreams(st, id); }
    LogOfIs(All(st.disk), s, n + 1);
    forall i | 0 <= i < n ensures SoAt(All(st.disk), SoId(s, i)) == SoAt(st.disk.flash, SoId(s, i)) {
      AllAt(st, s, i);
    }
    UpToSame(All(st.disk), st.disk.flash, s, n);
    AllAt(st, s, n);
  }

  /** Records found in an SO of a stream belong to PGs at home there. */
  lemma SoHome(flash: Objects, home: map<Pg, nat>, id: SoId, p: Pg)
    requires OneHome(flash, home) && OfPg(SoAt(flash, id), p) != []
    ensures p in home && home[p] == id.stream
  {
    var r := OfPg(SoAt(flash, id), p)[0];
    InOfPg(SoAt(flash, id), p, r);
    assert id == SoId(id.stream, id.seqno);
    UpToHas(flash, id.stream, id.seqno, Top(flash.Keys), r);
    InOfPg(LogOf(flash, id.stream), p, r);
    assert HomeAt(flash, home, id.stream, p);
  }

  // ------------------------------------------------------------- flush

  ghost predicate Overlaid(disk: Disk, id: SoId) {
    id.stream in disk.nv && disk.nv[id.stream].NvLive? && disk.nv[id.stream].seqno == id.seqno
  }

  lemma AllIs(disk: Disk, id: SoId)
    ensures id in All(disk) <==> id in disk.flash || Overlaid(disk, id)
    ensures id in All(disk) ==>
              All(disk)[id] == if Overlaid(disk, id) then disk.nv[id.stream].recs else disk.flash[id]
  {
    assert id == SoId(id.stream, id.seqno);
  }

  lemma AllSame(d: Disk, e: Disk)
    requires forall id: SoId :: (id in e.flash || Overlaid(e, id)) <==> (id in d.flash || Overlaid(d, id))
    requires forall id: SoId | id in e.flash || Overlaid(e, id) ::
               (if Overlaid(e, id) then e.nv[id.stream].recs else e.flash[id]) ==
               (if Overlaid(d, id) then d.nv[id.stream].recs else d.flash[id])
    ensures All(d) == All(e)
  {
    hide All;
    forall id: SoId
      ensures id in All(d) <==> id in All(e)
      ensures id in All(d) ==> All(d)[id] == All(e)[id]
    {
      AllIs(d, id);
      AllIs(e, id);
    }
  }

  /** Neither device step of a flush changes what the disk stands for. */
  lemma FlushKeepsAll(st: State, s: nat)
    requires StreamsOk(st) && ShapeOk(st) && s in st.streams && st.streams[s].buf != []
    ensures All(FlushedFlash(st, s).disk) == All(st.disk)
    ensures All(FlushedNv(FlushedFlash(st, s), s).disk) == All(st.disk)
  {
    hide All, SizeOf;
    assert StreamOk(st.disk, st.cap, s, st.streams[s]);
    AllSame(FlushedFlash(st, s).disk, st.disk);
    AllSame(FlushedNv(FlushedFlash(st, s), s).disk, st.disk);
  }

  /** The fields of a flushed state. */
  lemma FlushedFields(st: State, s: nat)
    requires s in st.streams
    ensures var st', x := Flushed(st, s), st.streams[s];
            && st'.cap == st.cap && st'.order == st.order && st'.hand == st.hand
            && st'.streams.Keys == st.streams.Keys
            && (forall t | t in st.streams && t != s :: st'.streams[t] == st.streams[t])
            && st'.streams[s].seqOldest == x.seqOldest && st'.streams[s].seqNext == x.seqNext + 1
            && st'.streams[s].buf == [] && st'.streams[s].bufNexti == 0
            && st'.disk.flash == st.disk.flash[SoId(s, x.seqNext) := x.buf]
            && st'.disk.nv == st.disk.nv[s := NvEmpty]
            && st'.pgs == if x.seqOldest == x.seqNext then Marked(st.pgs, x.buf) else st.pgs
    ensures var x', x := Flushed(st, s).streams[s], st.streams[s];
            && x'.newestTrx == (if x.seqOldest == x.seqNext then MaxTrx(x.buf) else x.newestTrx)
            && x'.agers == (if x.seqOldest == x.seqNext then AgersOf(x.buf) else x.agers)
  {
    hide MaxTrx, AgersOf, Marked;
  }

  lemma FlushedShape(st: State, s: nat)
    requires StreamsOk(st) && ShapeOk(st) && s in st.streams
    ensures StreamsOk(Flushed(st, s)) && ShapeOk(Flushed(st, s))
  {
    hide Flushed, Marked, MaxTrx, AgersOf, OrderOk;
    FlushedFields(st, s);
    var st' := Flushed(st, s);
    forall t | t in st'.streams ensures StreamOk(st'.disk, st'.cap, t, st'.streams[t]) {
      assert StreamOk(st.disk, st.cap, t, st.streams[t]);
    }
  }

  /** The PGs of the other streams are not in an SO. */
  ghost predicate Elsewhere(pgs: map<Pg, PgState>, s: nat, so: Log) {
    forall p | p in pgs && pgs[p].stream != s :: OfPg(so, p) == []
  }

  lemma SoElsewhere(st: State, history: Log, s: nat, i: nat)
    requires Inv(st, history)
    ensures Elsewhere(st.pgs, s, SoAt(All(st.disk), SoId(s, i)))
  {
    hide All, OfPg;
    forall p | p in st.pgs && st.pgs[p].stream != s
      ensures OfPg(SoAt(All(st.disk), SoId(s, i)), p) == []
    {
      if OfPg(SoAt(All(st.disk), SoId(s, i)), p) != [] {
        SoHome(All(st.disk), HomeOf(st.pgs), SoId(s, i), p);
      }
    }
  }

  lemma MarkedStatuses(pgs: map<Pg, PgState>, s: nat, so: Log, t: nat, so': Log)
    requires Elsewhere(pgs, s, so)
    requires t == s ==> so' == so && PgStatuses(pgs, s, [])
    requires t != s ==> PgStatuses(pgs, t, so')
    ensures PgStatuses(Marked(pgs, so), t, so')
  {
    hide NewestOf;
    var pgs' := Marked(pgs, so);
    forall p | p in pgs' && pgs'[p].stream == t ensures PgStatusOk(pgs'[p], OfPg(so', p)) {
      assert PgStatusOk(pgs[p], if t == s then OfPg([], p) else OfPg(so', p));
    }
  }

  lemma ClearedStatuses(pgs: map<Pg, PgState>, s: nat, so: Log, t: nat, so': Log)
    requires Elsewhere(pgs, s, so) && LogOk(so) && PgStatuses(pgs, s, so)
    requires t == s ==> so' == []
    requires t != s ==> PgStatuses(pgs, t, so')
    ensures PgStatuses(Cleared(pgs, AgersOf(so)), t, so')
  {
    hide NewestOf, AgersOf;
    var pgs' := Cleared(pgs, AgersOf(so));
    forall p | p in pgs' && pgs'[p].stream == t ensures PgStatusOk(pgs'[p], OfPg(so', p)) {
      InAgersOf(so, p);
      assert PgStatusOk(pgs[p], if t == s then OfPg(so, p) else OfPg(so', p));
    }
  }

  lemma FlushedStatus(st: State, s: nat, history: Log, t: nat)
    requires Inv(st, history) && s in st.streams && t in st.streams
    ensures StatusOk(Flushed(st, s), t)
  {
    hide Flushed, MaxTrx, AgersOf, All, SizeOf, Represents, PgsOk, StreamsOk, PgStatuses, Marked, Elsewhere;
    FlushedFields(st, s);
    var x := st.streams[s];
    assert StatusOk(st, t);
    assert StreamOk(st.disk, st.cap, t, st.streams[t]) && StreamOk(st.disk, st.cap, s, x);
    if x.seqOldest == x.seqNext {
      AllAt(st, s, x.seqNext);
      SoElsewhere(st, history, s, x.seqNext);
      MarkedStatuses(st.pgs, s, x.buf, t, if t == s then x.buf else OldestSo(st.disk, t, st.streams[t]));
    }
  }

  lemma FlushedInv(st: State, s: nat, history: Log)
    requires Inv(st, history) && s in st.streams && st.streams[s].buf != []
    ensures Inv(Flushed(st, s), history) && All(Flushed(st, s).disk) == All(st.disk)
  {
    hide Flushed, All, Represents, StatusOk, StreamsOk, ShapeOk, MaxTrx, AgersOf, NewestOf, OfPg, TrimOf, LogOf;
    FlushedFields(st, s);
    var st' := Flushed(st, s);
    assert st'.disk == FlushedNv(FlushedFlash(st, s), s).disk;
    FlushKeepsAll(st, s);
    FlushedShape(st, s);
    forall t | t in st'.streams ensures StatusOk(st', t) { FlushedStatus(st, s, history, t); }
    assert HomeOf(st'.pgs) == HomeOf(st.pgs);
  }

  // ----------------------------------------------------------- reclamation

  lemma {:induction false} InAgersOf(so: Log, p: Pg)
    requires LogOk(so)
    ensures p in AgersOf(so) <==> OfPg(so, p) != []
  {
    if so != [] { InAgersOf(so[..|so| - 1], p); }
  }

  /** NewestOf bounds every known counter. */
  lemma {:induction false} NewestBounds(log: Log, i: nat)
    requires i < |log|
    ensures log[i].counter == UNKNOWN || (NewestOf(log) != UNKNOWN && log[i].counter <= NewestOf(log))
  {
    if |log| > 1 && i < |log| - 1 { NewestBounds(log[..|log| - 1], i); }
  }

  /** A reclaimable SO holds only records strictly below their PG's trim position. */
  lemma ReclaimableDroppable(st: State, s: nat, oldestTrx: nat, history: Log, p: Pg, r: Record)
    requires Inv(st, history) && s in st.streams && Reclaimable(st, s, oldestTrx)
    requires st.streams[s].seqOldest < st.streams[s].seqNext
    requires r in OfPg(SoAt(st.disk.flash, SoId(s, st.streams[s].seqOldest)), p)
    ensures Droppable(r, TrimOf(PgLog(All(st.disk), HomeOf(st.pgs), p)))
  {
    hide All, AgersOf, MaxTrx, SizeOf, OfPg, LogOf, TrimOf, NewestOf, StreamsOk, ShapeOk, OneHome;
    var so := SoAt(st.disk.flash, SoId(s, st.streams[s].seqOldest));
    AllAt(st, s, st.streams[s].seqOldest);
    SoHome(All(st.disk), HomeOf(st.pgs), SoId(s, st.streams[s].seqOldest), p);
    assert StatusOk(st, s);
    assert PgStatusOk(st.pgs[p], OfPg(so, p));
    assert LogOk(so);
    InAgersOf(so, p);
    var i :| 0 <= i < |OfPg(so, p)| && OfPg(so, p)[i] == r;
    NewestBounds(OfPg(so, p), i);
  }

  lemma OldestFirst(st: State, s: nat)
    requires StreamsOk(st) && ShapeOk(st) && s in st.streams
    ensures forall j | j in All(st.disk) && j.stream == s :: st.streams[s].seqOldest <= j.seqno
  {
    forall j | j in All(st.disk) && j.stream == s ensures st.streams[s].seqOldest <= j.seqno {
      AllStreams(st, j);
    }
  }

  /** The fields of a state after one SO was reclaimed. */
  lemma ReclaimedFields(st: State, s: nat)
    requires s in st.streams
    ensures var st', x, so' := ReclaimedOne(st, s), st.streams[s], SoAt(st.disk.flash, SoId(s, st.streams[s].seqOldest + 1));
            && st'.cap == st.cap && st'.order == st.order && st'.hand == st.hand
            && st'.streams.Keys == st.streams.Keys
            && (forall t | t in st.streams && t != s :: st'.streams[t] == st.streams[t])
            && st'.streams[s] == x.(seqOldest := x.seqOldest + 1, newestTrx := MaxTrx(so'), agers := AgersOf(so'))
            && st'.disk.flash == st.disk.flash - {SoId(s, x.seqOldest)}
            && st'.disk.nv == st.disk.nv
            && st'.pgs == Marked(Cleared(st.pgs, x.agers), so')
  {
    hide MaxTrx, AgersOf, Marked, Cleared;
  }

  lemma ReclaimedShape(st: State, s: nat)
    requires StreamsOk(st) && ShapeOk(st) && s in st.streams
    requires st.streams[s].seqOldest < st.streams[s].seqNext
    ensures StreamsOk(ReclaimedOne(st, s)) && ShapeOk(ReclaimedOne(st, s))
  {
    hide ReclaimedOne, MaxTrx, AgersOf, Marked, Cleared, SizeOf, OrderOk;
    ReclaimedFields(st, s);
    var st' := ReclaimedOne(st, s);
    forall t | t in st'.streams ensures StreamOk(st'.disk, st'.cap, t, st'.streams[t]) {
      assert StreamOk(st.disk, st.cap, t, st.streams[t]);
    }
  }

  /** Deleting the oldest SO deletes it from what the disk stands for, and no more. */
  lemma ReclaimedAll(st: State, s: nat)
    requires StreamsOk(st) && ShapeOk(st) && s in st.streams
    requires st.streams[s].seqOldest < st.streams[s].seqNext
    ensures All(ReclaimedOne(st, s).disk) == All(st.disk) - {SoId(s, st.streams[s].seqOldest)}
  {
    hide ReclaimedOne, MaxTrx, AgersOf, Marked, Cleared, SizeOf, All;
    ReclaimedFields(st, s);
    var d, d', id := st.disk, ReclaimedOne(st, s).disk, SoId(s, st.streams[s].seqOldest);
    assert StreamOk(st.disk, st.cap, s, st.streams[s]);
    assert !Overlaid(d, id);
    forall j: SoId
      ensures j in All(d') <==> j in All(d) - {id}
      ensures j in All(d') ==> All(d')[j] == All(d)[j]
    {
      AllIs(d, j);
      AllIs(d', j);
      assert Overlaid(d, j) == Overlaid(d', j);
    }
  }

  lemma ReclaimedStatus(st: State, s: nat, history: Log, t: nat)
    requires Inv(st, history) && s in st.streams && t in st.streams
    requires st.streams[s].seqOldest + 1 < st.streams[s].seqNext
    ensures StatusOk(ReclaimedOne(st, s), t)
  {
    hide ReclaimedOne, MaxTrx, AgersOf, All, SizeOf, PgsOk, StreamsOk, PgStatuses, Marked, Cleared,
         Elsewhere, OneHome, LogOf, OfPg;
    ReclaimedFields(st, s);
    var x := st.streams[s];
    var so, so' := SoAt(st.disk.flash, SoId(s, x.seqOldest)), SoAt(st.disk.flash, SoId(s, x.seqOldest + 1));
    assert StatusOk(st, t) && StatusOk(st, s);
    assert StreamOk(st.disk, st.cap, t, st.streams[t]) && StreamOk(st.disk, st.cap, s, x);
    AllAt(st, s, x.seqOldest);
    AllAt(st, s, x.seqOldest + 1);
    SoElsewhere(st, history, s, x.seqOldest);
    SoElsewhere(st, history, s, x.seqOldest + 1);
    ReclaimedStatuses(st.pgs, s, so, so', t, OldestSo(st.disk, t, st.streams[t]));
  }

  lemma ReclaimedStatuses(pgs: map<Pg, PgState>, s: nat, so: Log, so': Log, t: nat, other: Log)
    requires Elsewhere(pgs, s, so) && Elsewhere(pgs, s, so') && LogOk(so)
    requires PgStatuses(pgs, s, so) && PgStatuses(pgs, t, other)
    ensures PgStatuses(Marked(Cleared(pgs, AgersOf(so)), so'), t, if t == s then so' else other)
  {
    hide PgStatuses, AgersOf, OfPg;
    var pgs1 := Cleared(pgs, AgersOf(so));
    ClearedStatuses(pgs, s, so, t, if t == s then [] else other);
    ClearedStatuses(pgs, s, so, s, []);
    assert Elsewhere(pgs1, s, so');
    MarkedStatuses(pgs1, s, so', t, if t == s then so' else other);
  }

  lemma ReclaimedRepresents(st: State, s: nat, oldestTrx: nat, history: Log)
    requires Inv(st, history) && s in st.streams && Reclaimable(st, s, oldestTrx)
    requires st.streams[s].seqOldest < st.streams[s].seqNext
    ensures var g := All(st.disk) - {SoId(s, st.streams[s].seqOldest)};
            && Represents(g, HomeOf(st.pgs), history)
            && forall p: Pg :: TrimOf(PgLog(g, HomeOf(st.pgs), p)) == TrimOf(PgLog(All(st.disk), HomeOf(st.pgs), p))
  {
    hide All, SizeOf, StatusOk, OfPg, TrimOf, LogOf, Reclaimable, Represents;
    var id, all, home := SoId(s, st.streams[s].seqOldest), All(st.disk), HomeOf(st.pgs);
    assert StreamOk(st.disk, st.cap, s, st.streams[s]);
    AllAt(st, s, id.seqno);
    OldestFirst(st, s);
    forall p: Pg, r | r in OfPg(all[id], p) ensures Droppable(r, TrimOf(PgLog(all, home, p))) {
      ReclaimableDroppable(st, s, oldestTrx, history, p, r);
    }
    RepresentsDrop(all, home, history, id);
  }

  /** Reclaiming one SO keeps the invariant for the same history: no read changes, and
      no trim position is lost. */
  lemma ReclaimedOneInv(st: State, s: nat, oldestTrx: nat, history: Log)
    requires Inv(st, history) && s in st.streams && Reclaimable(st, s, oldestTrx)
    requires st.streams[s].seqOldest + 1 < st.streams[s].seqNext
    ensures Inv(ReclaimedOne(st, s), history)
    ensures HomeOf(ReclaimedOne(st, s).pgs) == HomeOf(st.pgs)
  {
    hide ReclaimedOne, All, StatusOk, ShapeOk, StreamsOk, MaxTrx, AgersOf, NewestOf, OfPg, TrimOf, LogOf,
         Reclaimable, Represents, PgLog;
    var st' := ReclaimedOne(st, s);
    ReclaimedFields(st, s);
    ReclaimedAll(st, s);
    ReclaimedRepresents(st, s, oldestTrx, history);
    ReclaimedShape(st, s);
    forall t | t in st'.streams ensures StatusOk(st', t) { ReclaimedStatus(st, s, history, t); }
    assert HomeOf(st'.pgs) == HomeOf(st.pgs);
  }

  lemma {:induction false} ReclaimedInv(st: State, s: nat, oldest: Scans, history: Log)
    requires Inv(st, history) && s in st.streams
    ensures Inv(Reclaimed(st, s, oldest), history)
    ensures s in Reclaimed(st, s, oldest).streams
    ensures Reclaimed(st, s, oldest).streams[s].buf == st.streams[s].buf
    ensures Reclaimed(st, s, oldest).streams[s].bufNexti == st.streams[s].bufNexti
    ensures HomeOf(Reclaimed(st, s, oldest).pgs) == HomeOf(st.pgs)
    decreases st.streams[s].seqNext - st.streams[s].seqOldest
  {
    hide Inv, Reclaimable, AgersOf, MaxTrx, NewestOf, OfPg, ReclaimedOne;
    if ReclaimableNow(st, s, oldest) && st.streams[s].seqOldest + 1 < st.streams[s].seqNext {
      ReclaimedOneInv(st, s, oldest(Look(s, st.streams[s].seqNext, st.streams[s].seqOldest)), history);
      ReclaimedFields(st, s);
      ReclaimedInv(ReclaimedOne(st, s), s, oldest, history);
    }
  }

  // ---------------------------------------------------------------- append

  lemma AppendedAll(st: State, s: nat, r: Record)
    requires StreamsOk(st) && ShapeOk(st) && s in st.streams
    ensures var id := SoId(s, st.streams[s].seqNext);
            && All(Appended(st, s, r).disk) == All(st.disk)[id := SoAt(All(st.disk), id) + [r]]
            && forall j | j in All(st.disk) && j.stream == s :: j.seqno <= id.seqno
  {
    hide All, SizeOf;
    var d, d', id := st.disk, Appended(st, s, r).disk, SoId(s, st.streams[s].seqNext);
    AllAt(st, s, id.seqno);
    assert StreamOk(st.disk, st.cap, s, st.streams[s]);
    var g := All(d)[id := SoAt(All(d), id) + [r]];
    forall j: SoId
      ensures j in All(d') <==> j in g
      ensures j in All(d') ==> All(d')[j] == g[j]
    {
      AllIs(d, j);
      AllIs(d', j);
    }
    forall j | j in All(d) && j.stream == s ensures j.seqno <= id.seqno { AllStreams(st, j); }
  }

  lemma AppendedShape(st: State, s: nat, r: Record)
    requires StreamsOk(st) && ShapeOk(st) && s in st.streams && Fits(st, s, r)
    ensures StreamsOk(Appended(st, s, r)) && ShapeOk(Appended(st, s, r))
  {
    hide OrderOk, Numbered, SizeOf;
    var st' := Appended(st, s, r);
    SizeOfSnoc(st.streams[s].buf, r);
    assert st'.streams.Keys == st.streams.Keys && st'.disk.nv.Keys == st.disk.nv.Keys;
    forall t | t in st'.streams ensures StreamOk(st'.disk, st'.cap, t, st'.streams[t]) {
      assert StreamOk(st.disk, st.cap, t, st.streams[t]);
    }
  }

  lemma AppendedStatus(st: State, s: nat, r: Record, t: nat)
    requires s in st.streams && t in st.streams && StatusOk(st, t)
    ensures StatusOk(Appended(st, s, r), t)
  {
    hide MaxTrx, AgersOf, PgStatuses;
  }

  lemma BumpedStatus(st: State, r: Record, t: nat)
    requires t in st.streams && StatusOk(st, t)
    ensures StatusOk(Bumped(st, r), t)
  {
    hide MaxTrx, AgersOf;
  }

  /** The trim positions after the append, with the TRIM's own PG moved. */
  lemma AppendedTrims(st: State, s: nat, r: Record, history: Log)
    requires Inv(st, history) && s in st.streams
    requires RecordOk(r) && PgOf(r.key) in st.pgs && st.pgs[PgOf(r.key)].stream == s
    ensures PgsOk(Bumped(Appended(st, s, r), r))
    ensures HomeOf(Bumped(Appended(st, s, r), r).pgs) == HomeOf(st.pgs)
  {
    hide All, TrimOf, OfPg, LogOf, StatusOk, ShapeOk, StreamsOk, Represents;
    var st' := Bumped(Appended(st, s, r), r);
    var id, home := SoId(s, st.streams[s].seqNext), HomeOf(st.pgs);
    assert HomeOf(st'.pgs) == home;
    AppendedAll(st, s, r);
    forall p | p in st'.pgs
      ensures st'.pgs[p].stream in st'.streams
      ensures st'.pgs[p].trim == TrimOf(PgLog(All(st'.disk), home, p))
    {
      var log := LogOf(All(st.disk), home[p]);
      AppendStreams(All(st.disk), id, [r], home[p]);
      OfPgSnoc(log, r, p);
      TrimOfSnoc(OfPg(log, p), r);
      assert log + [] == log && OfPg(log, p) + [] == OfPg(log, p);
      assert st.pgs[p].trim == TrimOf(OfPg(log, p));
    }
  }

  /** A record appended to its PG's stream extends the history by that record. */
  lemma AppendedInv(st: State, s: nat, r: Record, history: Log)
    requires Inv(st, history) && s in st.streams && Fits(st, s, r)
    requires RecordOk(r) && PgOf(r.key) in st.pgs && st.pgs[PgOf(r.key)].stream == s
    ensures Inv(Bumped(Appended(st, s, r), r), history + [r])
    ensures Represents(All(Appended(st, s, r).disk), HomeOf(st.pgs), history + [r])
  {
    hide All, TrimOf, OfPg, LogOf, StatusOk, ShapeOk, StreamsOk, Represents, PgLog, Fits, PgsOk;
    var st1 := Appended(st, s, r);
    var st' := Bumped(st1, r);
    AppendedAll(st, s, r);
    RepresentsAppend(All(st.disk), HomeOf(st.pgs), history, SoId(s, st.streams[s].seqNext), r);
    AppendedTrims(st, s, r, history);
    AppendedShape(st, s, r);
    BumpedShape(st1, r);
    forall t | t in st'.streams ensures StatusOk(st', t) {
      AppendedStatus(st, s, r, t);
      BumpedStatus(st1, r, t);
    }
  }

  lemma BumpedShape(st: State, r: Record)
    requires StreamsOk(st) && ShapeOk(st)
    ensures StreamsOk(Bumped(st, r)) && ShapeOk(Bumped(st, r))
  {}

  // ----------------------------------------------------------------- pglookup

  lemma WithPgInv(st: State, p: Pg, history: Log)
    requires Inv(st, history)
    ensures Inv(WithPg(st, p), history) && p in WithPg(st, p).pgs
    ensures WithPg(st, p).pgs[p].stream in WithPg(st, p).streams
  {
    hide All, TrimOf, OfPg, LogOf, Represents, ShapeOk, StatusOk;
    if p !in st.pgs {
      var st', s := WithPg(st, p), st.order[st.hand];
      RepresentsNewHome(All(st.disk), HomeOf(st.pgs), history, p, s);
      assert HomeOf(st'.pgs) == HomeOf(st.pgs)[p := s];
      assert s in st.order && s in st.streams;
      assert ShapeOk(st') by { WithPgShape(st, p); }
      forall t | t in st'.streams ensures StatusOk(st', t) { WithPgStatus(st, p, t, history); }
      assert TrimOf([]) == UNKNOWN by { NoTrim(); }
    }
  }

  lemma NoTrim()
    ensures TrimOf([]) == UNKNOWN
  {}

  lemma WithPgShape(st: State, p: Pg)
    requires StreamsOk(st) && ShapeOk(st)
    ensures ShapeOk(WithPg(st, p))
  {}

  lemma WithPgStatus(st: State, p: Pg, t: nat, history: Log)
    requires Inv(st, history) && p !in st.pgs && t in st.streams
    ensures StatusOk(WithPg(st, p), t)
  {
    hide MaxTrx, AgersOf, All, SizeOf, NewestOf, PgsOk, LogOf;
    var x, pgs' := st.streams[t], WithPg(st, p).pgs;
    var so := OldestSo(st.disk, t, x);
    assert StatusOk(st, t);
    forall q | q in pgs' && pgs'[q].stream == t ensures PgStatusOk(pgs'[q], OfPg(so, q)) {
      if q == p {
        AllAt(st, t, x.seqOldest);
        if OfPg(so, p) != [] { SoHome(All(st.disk), HomeOf(st.pgs), SoId(t, x.seqOldest), p); }
      } else {
        assert PgStatusOk(st.pgs[q], OfPg(so, q));
      }
    }
  }

  // -------------------------------------------------------------- streamwrite

  lemma BufferHolds(st: State, s: nat, r: Record)
    requires StreamsOk(st) && ShapeOk(st) && s in st.streams && RecordOk(r)
    ensures !Fits(st, s, r) ==> st.streams[s].buf != []
    ensures st.streams[s].bufNexti == 0 ==> Fits(st, s, r)
  {
    assert StreamOk(st.disk, st.cap, s, st.streams[s]);
  }

  /** A flush makes room, whatever reclamation then does. */
  lemma RoomMadeInv(st: State, s: nat, r: Record, oldest: Scans, history: Log)
    requires Inv(st, history) && s in st.streams && RecordOk(r) && !Fits(st, s, r)
    ensures st.streams[s].buf != []
    ensures var st' := RoomMade(st, s, oldest);
            Inv(st', history) && Fits(st', s, r) && HomeOf(st'.pgs) == HomeOf(st.pgs)
  {
    hide Inv, Flushed, Reclaimed, Marked;
    var st1 := Flushed(st, s);
    assert StreamsOk(st) && ShapeOk(st) by { InvParts(st, history); }
    BufferHolds(st, s, r);
    FlushedInv(st, s, history);
    FlushedFields(st, s);
    MarkedHome(st.pgs, st.streams[s].buf);
    ReclaimedInv(st1, s, oldest, history);
    var st' := RoomMade(st, s, oldest);
    assert StreamsOk(st') && ShapeOk(st') by { InvParts(st', history); }
    BufferHolds(st', s, r);
  }

  lemma MarkedHome(pgs: map<Pg, PgState>, so: Log)
    ensures HomeOf(Marked(pgs, so)) == HomeOf(pgs)
  {}

  lemma InvParts(st: State, history: Log)
    requires Inv(st, history)
    ensures StreamsOk(st) && ShapeOk(st) && PgsOk(st) && Represents(All(st.disk), HomeOf(st.pgs), history)
  {}

  // ------------------------------------------------ loops of sostatus, step by step

  lemma AgersSnoc(so: Log, r: Record)
    requires RecordOk(r)
    ensures AgersOf(so + [r]) ==
            if r.kind.Tombstone? || PgOf(r.key) in AgersOf(so) then AgersOf(so) else [PgOf(r.key)] + AgersOf(so)
    ensures MaxTrx(so + [r]) == if !r.kind.Tombstone? && MaxTrx(so) < r.trx then r.trx else MaxTrx(so)
  {
    Snoc(so, r);
  }

  lemma NewestSnoc(log: Log, r: Record)
    ensures NewestOf(log + [r]) == if log == [] then r.counter else Newest(NewestOf(log), r.counter)
  {
    Snoc(log, r);
  }

  /** The marks after one more record. */
  lemma MarkedSnoc(pgs: map<Pg, PgState>, so: Log, r: Record)
    requires RecordOk(r)
    requires !r.kind.Tombstone? ==> PgOf(r.key) in pgs && !pgs[PgOf(r.key)].aging
    ensures var m := Marked(pgs, so);
            Marked(pgs, so + [r]) ==
            if r.kind.Tombstone? then m
            else
              var p := PgOf(r.key);
              m[p := m[p].(newest := if m[p].aging then Newest(m[p].newest, r.counter) else r.counter, aging := true)]
  {
    hide OfPg, NewestOf;
    forall p | p in pgs
      ensures OfPg(so + [r], p) == OfPg(so, p) + (if Concerns(r, p) then [r] else [])
      ensures Concerns(r, p) ==>
                NewestOf(OfPg(so + [r], p)) ==
                if OfPg(so, p) == [] then r.counter else Newest(NewestOf(OfPg(so, p)), r.counter)
    {
      OfPgSnoc(so, r, p);
      NewestSnoc(OfPg(so, p), r);
    }
    var m, m' := Marked(pgs, so), Marked(pgs, so + [r]);
    if r.kind.Tombstone? {
      assert forall p | p in pgs :: OfPg(so + [r], p) == OfPg(so, p);
      assert m' == m;
    } else {
      var q := PgOf(r.key);
      assert Concerns(r, q) && forall p | p in pgs && p != q :: OfPg(so + [r], p) == OfPg(so, p);
      assert m' == m[q := m'[q]];
    }
  }

  /** Newest trx of an SO bounds every live record in it. */
  lemma {:induction false} MaxTrxBounds(so: Log, r: Record)
    requires r in so && !r.kind.Tombstone?
    ensures r.trx <= MaxTrx(so)
  {
    var l := so[..|so| - 1];
    assert so == l + [so[|so| - 1]];
    if r in l { MaxTrxBounds(l, r); }
  }

  /** No SO with a live record of a trx that no scan has found ended is deleted. */
  lemma {:induction false} ReclaimedSparesActive(st: State, s: nat, oldest: Scans, history: Log, id: SoId, r: Record, trx: nat)
    requires Inv(st, history) && s in st.streams && forall look :: oldest(look) <= trx
    requires id in st.disk.flash && id !in Reclaimed(st, s, oldest).disk.flash
    requires r in st.disk.flash[id] && !r.kind.Tombstone?
    ensures r.trx < trx
    decreases st.streams[s].seqNext - st.streams[s].seqOldest
  {
    hide Inv, Reclaimable, ReclaimedOne;
    var look := Look(s, st.streams[s].seqNext, st.streams[s].seqOldest);
    assert ReclaimableNow(st, s, oldest) && st.streams[s].seqOldest + 1 < st.streams[s].seqNext;
    ReclaimedFields(st, s);
    if id == SoId(s, st.streams[s].seqOldest) {
      OldestStatus(st, s, oldest(look), history);
      MaxTrxBounds(st.disk.flash[id], r);
    } else {
      ReclaimedOneInv(st, s, oldest(look), history);
      ReclaimedSparesActive(ReclaimedOne(st, s), s, oldest, history, id, r, trx);
    }
  }

  lemma OldestStatus(st: State, s: nat, oldestTrx: nat, history: Log)
    requires Inv(st, history) && s in st.streams && Reclaimable(st, s, oldestTrx)
    requires st.streams[s].seqOldest < st.streams[s].seqNext
    ensures MaxTrx(SoAt(st.disk.flash, SoId(s, st.streams[s].seqOldest))) < oldestTrx
  {
    hide MaxTrx, StreamsOk, ShapeOk, PgsOk, Represents, AgersOf;
    assert StatusOk(st, s);
  }

  /** What the live records of an SO of a stream need of the PG table. */
  lemma SoPgs(st: State, s: nat, i: nat, history: Log, r: Record)
    requires Inv(st, history) && s in st.streams
    requires r in SoAt(All(st.disk), SoId(s, i)) && !r.kind.Tombstone?
    ensures RecordOk(r) && PgOf(r.key) in st.pgs && st.pgs[PgOf(r.key)].stream == s
  {
    hide All, StreamsOk, ShapeOk, PgsOk, StatusOk, OfPg, OneHome;
    var so := SoAt(All(st.disk), SoId(s, i));
    assert RecordOk(r);
    InOfPg(so, PgOf(r.key), r);
    SoHome(All(st.disk), HomeOf(st.pgs), SoId(s, i), PgOf(r.key));
  }

  /** Reclaiming any number of SOs changes no read of a key with a known counter and no trim
      position, in any stream. */
  lemma ReclaimKeepsReads(st: State, s: nat, oldest: Scans, history: Log, k: Key)
    requires Inv(st, history) && s in st.streams
    requires WellFormed(k) && CounterOf(k) != UNKNOWN && PgOf(k) in st.pgs
    ensures var st' := Reclaimed(st, s, oldest);
            && PgOf(k) in st'.pgs && st'.pgs[PgOf(k)].stream == st.pgs[PgOf(k)].stream
            && Lookup(Replay(LogOf(All(st'.disk), st.pgs[PgOf(k)].stream)), k) ==
               Lookup(Replay(LogOf(All(st.disk), st.pgs[PgOf(k)].stream)), k)
            && st'.pgs[PgOf(k)].trim == st.pgs[PgOf(k)].trim
  {
    hide Inv, All, Lookup, Replay, LogOf, Represents, Reclaimed, StreamsOk, ShapeOk, TrimOf, OfPg;
    var st', p := Reclaimed(st, s, oldest), PgOf(k);
    ReclaimedInv(st, s, oldest, history);
    InvParts(st, history);
    InvParts(st', history);
    assert p in HomeOf(st.pgs) && p in HomeOf(st'.pgs) && HomeOf(st'.pgs)[p] == HomeOf(st.pgs)[p];
    ReadHome(All(st.disk), HomeOf(st.pgs), history, k);
    ReadHome(All(st'.disk), HomeOf(st'.pgs), history, k);
    SameTrim(All(st.disk), All(st'.disk), HomeOf(st.pgs), history, p);
  }

  lemma SameTrim(flash: Objects, flash': Objects, home: map<Pg, nat>, history: Log, p: Pg)
    requires Represents(flash, home, history) && Represents(flash', home, history)
    ensures TrimOf(PgLog(flash, home, p)) == TrimOf(PgLog(flash', home, p))
  {
    hide PgLog, TrimOf, OfPg, OneHome;
    assert Kept(OfPg(history, p), PgLog(flash, home, p)) && Kept(OfPg(history, p), PgLog(flash', home, p));
    KeptTrim(OfPg(history, p), PgLog(flash, home, p));
    KeptTrim(OfPg(history, p), PgLog(flash', home, p));
  }
}
