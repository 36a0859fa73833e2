/** How far a reclamation goes, told from the records on flash and the trim positions alone.

    streamreclaim decides by a status kept in memory; here an SO is outdated or not by what it
    holds, and a stream is swept when exactly the outdated SOs at its old end are gone. */
module Sweep {
  import opened Keys
  import opened LogSpec
  import opened Flash
  import opened Container
  import opened ContainerProofs
  import opened Limits

  // ------------------------------------------------------------------ outdated SOs

  /** The records of one PG in an SO, against the PG's trim position: some counter is known, and all that
      are known lie below it. */
  ghost predicate BelowTrim(own: Log, trim: nat) {
    own != [] ==>
      && trim != UNKNOWN
      && (exists r | r in own :: r.counter != UNKNOWN)
      && (forall r | r in own :: r.counter == UNKNOWN || r.counter < trim)
  }

  /** Every live record is of a transaction older than the given one, and each PG's records lie below its
      trim position. */
  ghost predicate Outdated(so: Log, pgs: map<Pg, PgState>, oldestTrx: nat) {
    && 0 < oldestTrx && (forall r | r in so && !r.kind.Tombstone? :: r.trx < oldestTrx)
    && forall p | p in pgs :: BelowTrim(OfPg(so, p), pgs[p].trim)
  }

  lemma {:induction false} MaxTrxIs(so: Log, oldestTrx: nat)
    ensures MaxTrx(so) < oldestTrx <==> 0 < oldestTrx && forall r | r in so && !r.kind.Tombstone? :: r.trx < oldestTrx
  {
    if so != [] {
      var rest, last := so[..|so| - 1], so[|so| - 1];
      MaxTrxIs(rest, oldestTrx);
      assert forall r :: r in so <==> r in rest || r == last;
    }
  }

  /** NewestOf is the largest known counter, unknown if there is none. */
  lemma {:induction false} NewestIs(log: Log)
    requires log != []
    ensures NewestOf(log) == UNKNOWN <==> forall r | r in log :: r.counter == UNKNOWN
    ensures exists r | r in log :: r.counter == NewestOf(log)
    ensures NewestOf(log) != UNKNOWN ==> forall r | r in log :: r.counter == UNKNOWN || r.counter <= NewestOf(log)
  {
    var rest, last := log[..|log| - 1], log[|log| - 1];
    assert forall r :: r in log <==> r in rest || r == last;
    if |log| > 1 {
      NewestIs(rest);
    }
  }

  lemma BelowIs(own: Log, trim: nat)
    requires own != [] && trim <= UNKNOWN
    ensures NewestOf(own) < Newest(0, trim) <==> BelowTrim(own, trim)
  {
    NewestIs(own);
    hide NewestOf;
  }

  lemma {:induction false} TrimBound(log: Log)
    requires LogOk(log)
    ensures TrimOf(log) <= UNKNOWN
  {
    if log != [] { TrimBound(log[..|log| - 1]); }
  }

  lemma {:induction false} OfPgOk(log: Log, p: Pg)
    requires LogOk(log)
    ensures LogOk(OfPg(log, p))
  {
    if log != [] { OfPgOk(log[..|log| - 1], p); }
  }

  lemma TrimsKnown(st: State, history: Log, p: Pg)
    requires Inv(st, history) && p in st.pgs
    ensures st.pgs[p].trim <= UNKNOWN
  {
    hide All, StreamsOk, ShapeOk, StatusOk, OfPg, TrimOf, LogOf, OneHome, LogOk, Kept;
    LogOfOk(All(st.disk), st.pgs[p].stream);
    OfPgOk(LogOf(All(st.disk), st.pgs[p].stream), p);
    TrimBound(PgLog(All(st.disk), HomeOf(st.pgs), p));
  }

  /** The status kept in memory passes exactly when the oldest SO is outdated. */
  lemma ReclaimableIffOutdated(st: State, s: nat, oldestTrx: nat, history: Log)
    requires Inv(st, history) && s in st.streams && st.streams[s].seqOldest < st.streams[s].seqNext
    ensures Reclaimable(st, s, oldestTrx) <==>
            Outdated(SoAt(st.disk.flash, SoId(s, st.streams[s].seqOldest)), st.pgs, oldestTrx)
  {
    var so := SoAt(st.disk.flash, SoId(s, st.streams[s].seqOldest));
    assert st.streams[s].newestTrx == MaxTrx(so) by { assert StatusOk(st, s); }
    hide Inv, MaxTrx, AgersOf, NewestOf, OfPg, BelowTrim, TrimOf, LogOf, All;
    MaxTrxIs(so, oldestTrx);
    forall p: Pg
      ensures p in st.streams[s].agers ==>
                p in st.pgs && (st.pgs[p].newest < Newest(0, st.pgs[p].trim) <==> BelowTrim(OfPg(so, p), st.pgs[p].trim))
      ensures p in st.pgs && p !in st.streams[s].agers ==> BelowTrim(OfPg(so, p), st.pgs[p].trim)
    {
      StatusDecides(st, s, history, p);
      if p in st.pgs {
        TrimsKnown(st, history, p);
        if OfPg(so, p) == [] { NoneBelow(st.pgs[p].trim); } else { BelowIs(OfPg(so, p), st.pgs[p].trim); }
      }
    }
  }

  lemma NoneBelow(trim: nat)
    ensures BelowTrim([], trim)
  {}

  // -------------------------------------------------------------------- swept streams

  /** The same PGs in the same streams with the same trim positions. */
  ghost predicate SamePgs(pgs: map<Pg, PgState>, pgs': map<Pg, PgState>) {
    pgs'.Keys == pgs.Keys && forall p | p in pgs :: pgs'[p].stream == pgs[p].stream && pgs'[p].trim == pgs[p].trim
  }

  /** Stream s of the first state, reclaimed: its SOs are gone up to the first that is not outdated, or is the
      newest, each judged by the scan made for it, and nothing else on the disk has changed. */
  ghost predicate Swept(st: State, st': State, s: nat, oldest: Scans) {
    && Framed(st, st', s)
    && StopsAt(st, s, oldest, st'.streams[s].seqOldest)
    && OnlyGone(st.disk.flash, st'.disk.flash, s, st.streams[s].seqOldest, st'.streams[s].seqOldest)
  }

  ghost predicate StopsAt(st: State, s: nat, oldest: Scans, n: nat)
    requires s in st.streams
  {
    && st.streams[s].seqOldest <= n
    && (forall i: nat | st.streams[s].seqOldest <= i < n :: OutdatedAt(st, s, oldest, i))
    && (st.streams[s].seqOldest < n ==> n < st.streams[s].seqNext)
    && (n + 1 < st.streams[s].seqNext ==> !OutdatedAt(st, s, oldest, n))
  }

  /** What reclaiming stream s leaves alone. */
  ghost predicate Framed(st: State, st': State, s: nat) {
    && s in st.streams && st'.streams.Keys == st.streams.Keys
    && (forall t | t in st.streams && t != s :: st'.streams[t] == st.streams[t])
    && SamePgs(st.pgs, st'.pgs)
    && st'.disk.nv == st.disk.nv && st'.cap == st.cap && st'.order == st.order && st'.hand == st.hand
    && var x, x' := st.streams[s], st'.streams[s];
       x'.seqNext == x.seqNext && x'.buf == x.buf && x'.bufNexti == x.bufNexti
  }

  ghost predicate OutdatedAt(st: State, s: nat, oldest: Scans, i: nat)
    requires s in st.streams
  {
    Outdated(SoAt(st.disk.flash, SoId(s, i)), st.pgs, oldest(Look(s, st.streams[s].seqNext, i)))
  }

  /** SOs lo to hi - 1 of the stream are gone, and no others. */
  ghost predicate OnlyGone(flash: Objects, flash': Objects, s: nat, lo: nat, hi: nat) {
    forall id: SoId ::
      && (id in flash' <==> id in flash && !(id.stream == s && lo <= id.seqno < hi))
      && (id in flash' ==> id in flash && flash'[id] == flash[id])
  }

  lemma ReclaimedPgs(st: State, s: nat)
    requires s in st.streams
    ensures SamePgs(st.pgs, ReclaimedOne(st, s).pgs)
  {
    hide MaxTrx, AgersOf, NewestOf, OfPg;
  }

  lemma OutdatedSame(st: State, st': State, s: nat, oldest: Scans, i: nat)
    requires s in st.streams && s in st'.streams && SamePgs(st.pgs, st'.pgs)
    requires st'.streams[s].seqNext == st.streams[s].seqNext
    requires SoAt(st'.disk.flash, SoId(s, i)) == SoAt(st.disk.flash, SoId(s, i))
    ensures OutdatedAt(st', s, oldest, i) <==> OutdatedAt(st, s, oldest, i)
  {
    hide OfPg, BelowTrim;
  }

  lemma StopsMore(st: State, st1: State, s: nat, oldest: Scans, n: nat)
    requires Framed(st, st1, s) && StopsAt(st1, s, oldest, n)
    requires st1.streams[s].seqOldest == st.streams[s].seqOldest + 1 < st.streams[s].seqNext
    requires OutdatedAt(st, s, oldest, st.streams[s].seqOldest)
    requires forall i: nat | i > st.streams[s].seqOldest :: SoAt(st1.disk.flash, SoId(s, i)) == SoAt(st.disk.flash, SoId(s, i))
    ensures StopsAt(st, s, oldest, n)
  {
    var lo := st.streams[s].seqOldest;
    assert SamePgs(st.pgs, st1.pgs) && st1.streams[s].seqNext == st.streams[s].seqNext;
    hide OutdatedAt, SamePgs, Framed;
    forall i: nat | lo <= i < n ensures OutdatedAt(st, s, oldest, i) {
      if lo < i {
        assert OutdatedAt(st1, s, oldest, i);
        OutdatedSame(st, st1, s, oldest, i);
      }
    }
    OutdatedSame(st, st1, s, oldest, n);
  }

  lemma FramedTwice(a: State, b: State, c: State, s: nat)
    requires Framed(a, b, s) && Framed(b, c, s)
    ensures Framed(a, c, s)
  {}

  lemma FramedOne(st: State, s: nat)
    requires s in st.streams
    ensures Framed(st, ReclaimedOne(st, s), s)
  {
    hide ReclaimedOne, SamePgs, MaxTrx, AgersOf, Marked, Cleared;
    ReclaimedFields(st, s);
    ReclaimedPgs(st, s);
  }

  /** One round more at the front of a sweep. */
  lemma SweptMore(st: State, st': State, s: nat, oldest: Scans)
    requires s in st.streams && OutdatedAt(st, s, oldest, st.streams[s].seqOldest)
    requires st.streams[s].seqOldest + 1 < st.streams[s].seqNext
    requires Swept(ReclaimedOne(st, s), st', s, oldest)
    ensures Swept(st, st', s, oldest)
  {
    var st1 := ReclaimedOne(st, s);
    hide ReclaimedOne, OutdatedAt, Framed, StopsAt, OnlyGone, MaxTrx, AgersOf, Marked, Cleared;
    ReclaimedFields(st, s);
    FramedOne(st, s);
    FramedTwice(st, st1, st', s);
    StopsMore(st, st1, s, oldest, st'.streams[s].seqOldest);
    assert st1.streams[s].seqOldest <= st'.streams[s].seqOldest by { assert StopsAt(st1, s, oldest, st'.streams[s].seqOldest); }
    GoneMore(st.disk.flash, st1.disk.flash, st'.disk.flash, s, st.streams[s].seqOldest, st'.streams[s].seqOldest);
  }

  lemma GoneMore(f: Objects, f1: Objects, f2: Objects, s: nat, lo: nat, hi: nat)
    requires f1 == f - {SoId(s, lo)} && OnlyGone(f1, f2, s, lo + 1, hi) && lo < hi
    ensures OnlyGone(f, f2, s, lo, hi)
  {
    forall id: SoId
      ensures id in f2 <==> id in f && !(id.stream == s && lo <= id.seqno < hi)
      ensures id in f2 ==> id in f && f2[id] == f[id]
    {
      assert id == SoId(id.stream, id.seqno);
    }
  }

  lemma SweptNone(st: State, s: nat, oldest: Scans)
    requires s in st.streams
    requires st.streams[s].seqOldest + 1 < st.streams[s].seqNext ==> !OutdatedAt(st, s, oldest, st.streams[s].seqOldest)
    ensures Swept(st, st, s, oldest)
  {
    hide OutdatedAt;
  }

  /** Reclaiming sweeps: it deletes exactly the outdated SOs at the old end of the stream, all of them. */
  lemma {:induction false} ReclaimedSwept(st: State, s: nat, oldest: Scans, history: Log)
    requires Inv(st, history) && s in st.streams
    ensures Swept(st, Reclaimed(st, s, oldest), s, oldest)
    decreases st.streams[s].seqNext - st.streams[s].seqOldest
  {
    hide Inv, ReclaimedOne, Reclaimable, Swept, Outdated;
    var x := st.streams[s];
    var look := Look(s, x.seqNext, x.seqOldest);
    if x.seqOldest < x.seqNext { ReclaimableIffOutdated(st, s, oldest(look), history); }
    if ReclaimableNow(st, s, oldest) && x.seqOldest + 1 < x.seqNext {
      var st1 := ReclaimedOne(st, s);
      ReclaimedOneInv(st, s, oldest(look), history);
      ReclaimedFields(st, s);
      ReclaimedSwept(st1, s, oldest, history);
      SweptMore(st, Reclaimed(st1, s, oldest), s, oldest);
    } else {
      SweptNone(st, s, oldest);
    }
  }
}
