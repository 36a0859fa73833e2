/** Streaming objects on flash, and how they represent a history of records.

    A streaming object (SO) is named by its stream and sequence number.  The log of a
    stream is the concatenation of its SOs in sequence order. */
module Flash {
  import opened Keys
  import opened LogSpec

  datatype SoId = SoId(stream: nat, seqno: nat)
  type Objects = map<SoId, Log>

  function SoAt(flash: Objects, id: SoId): Log { if id in flash then flash[id] else [] }

  /** Concatenation of the SOs of stream `s` numbered below `n`. */
  function UpTo(flash: Objects, s: nat, n: nat): Log {
    if n == 0 then [] else UpTo(flash, s, n - 1) + SoAt(flash, SoId(s, n - 1))
  }

  /** A bound on all sequence numbers in use. */
  ghost function Top(ids: set<SoId>): (n: nat)
    ensures forall id | id in ids :: id.seqno < n
  {
    if ids == {} then 0
    else
      var id :| id in ids;
      var m := Top(ids - {id});
      if id.seqno < m then m else id.seqno + 1
  }

  ghost function LogOf(flash: Objects, s: nat): Log { UpTo(flash, s, Top(flash.Keys)) }

  lemma {:induction false} UpToStable(flash: Objects, s: nat, n: nat, m: nat)
    requires n <= m
    requires forall i | n <= i < m :: SoId(s, i) !in flash
    ensures UpTo(flash, s, m) == UpTo(flash, s, n)
  {
    if n < m { UpToStable(flash, s, n, m - 1); }
  }

  lemma {:induction false} UpToSame(f: Objects, g: Objects, s: nat, n: nat)
    requires forall i | 0 <= i < n :: SoAt(f, SoId(s, i)) == SoAt(g, SoId(s, i))
    ensures UpTo(f, s, n) == UpTo(g, s, n)
  {
    if n > 0 {
      UpToSame(f, g, s, n - 1);
      assert SoAt(f, SoId(s, n - 1)) == SoAt(g, SoId(s, n - 1));
    }
  }

  lemma LogOfIs(flash: Objects, s: nat, n: nat)
    requires forall id | id in flash && id.stream == s :: id.seqno < n
    ensures LogOf(flash, s) == UpTo(flash, s, n)
  {
    var top := Top(flash.Keys);
    if top <= n {
      UpToStable(flash, s, top, n);
    } else {
      UpToStable(flash, s, n, top);
    }
  }

  /** Streams are independent of one another. */
  lemma LogOfSame(f: Objects, g: Objects, s: nat)
    requires forall i: nat :: SoAt(f, SoId(s, i)) == SoAt(g, SoId(s, i))
    ensures LogOf(f, s) == LogOf(g, s)
  {
    var n, m := Top(f.Keys), Top(g.Keys);
    var top := if n < m then m else n;
    LogOfIs(f, s, top);
    LogOfIs(g, s, top);
    UpToSame(f, g, s, top);
  }

  lemma UpToStep(flash: Objects, s: nat, n: nat)
    ensures UpTo(flash, s, n + 1) == UpTo(flash, s, n) + SoAt(flash, SoId(s, n))
  {}

  /** Writing to the newest SO of a stream, or opening the next one, appends. */
  lemma ExtendLast(flash: Objects, id: SoId, x: Log)
    requires forall j | j in flash && j.stream == id.stream :: j.seqno <= id.seqno
    ensures var g := flash[id := SoAt(flash, id) + x];
            LogOf(g, id.stream) == LogOf(flash, id.stream) + x
  {
    hide LogOf, UpTo;
    var g, s, q := flash[id := SoAt(flash, id) + x], id.stream, id.seqno;
    LogOfIs(flash, s, q + 1);
    LogOfIs(g, s, q + 1);
    UpToSame(flash, g, s, q);
    assert id == SoId(s, q) && SoAt(g, id) == SoAt(flash, id) + x;
    UpToStep(flash, s, q);
    UpToStep(g, s, q);
    assert UpTo(flash, s, q) + (SoAt(flash, id) + x) == (UpTo(flash, s, q) + SoAt(flash, id)) + x;
  }

  lemma {:induction false} UpToWithout(flash: Objects, id: SoId, n: nat)
    requires id in flash && id.seqno < n
    requires forall j | j in flash && j.stream == id.stream :: id.seqno <= j.seqno
    ensures UpTo(flash, id.stream, n) == flash[id] + UpTo(flash - {id}, id.stream, n)
  {
    var s, g := id.stream, flash - {id};
    assert SoAt(flash, SoId(s, n - 1)) == if n - 1 == id.seqno then flash[id] else SoAt(g, SoId(s, n - 1));
    if n - 1 == id.seqno {
      UpToStable(flash, s, 0, n - 1);
      UpToStable(g, s, 0, n);
      assert UpTo(flash, s, 0) == [] && UpTo(g, s, 0) == [];
    } else {
      UpToWithout(flash, id, n - 1);
    }
  }

  /** Deleting the oldest SO of a stream removes its records from the head of the log. */
  lemma DropFirst(flash: Objects, id: SoId)
    requires id in flash
    requires forall j | j in flash && j.stream == id.stream :: id.seqno <= j.seqno
    ensures LogOf(flash, id.stream) == flash[id] + LogOf(flash - {id}, id.stream)
  {
    var n := Top(flash.Keys);
    LogOfIs(flash - {id}, id.stream, n);
    UpToWithout(flash, id, n);
  }

  lemma {:induction false} InUpTo(flash: Objects, s: nat, n: nat, r: Record)
    requires r in UpTo(flash, s, n)
    ensures exists i | 0 <= i < n :: r in SoAt(flash, SoId(s, i))
  {
    if r in UpTo(flash, s, n - 1) {
      InUpTo(flash, s, n - 1, r);
    } else {
      assert r in SoAt(flash, SoId(s, n - 1));
    }
  }

  lemma {:induction false} UpToHas(flash: Objects, s: nat, i: nat, n: nat, r: Record)
    requires i < n && r in SoAt(flash, SoId(s, i))
    ensures r in UpTo(flash, s, n)
  {
    if i < n - 1 { UpToHas(flash, s, i, n - 1, r); }
  }

  // ------------------------------------------------------------ reverted trx

  /** soscan turns the records of a reverted trx into tombstones. */
  function Tomb(r: Record, reverted: set<nat>): Record {
    if r.trx in reverted then r.(kind := Tombstone) else r
  }

  function TombLog(log: Log, reverted: set<nat>): (l: Log)
    ensures |l| == |log|
    ensures forall i | 0 <= i < |log| :: l[i] == Tomb(log[i], reverted)
  {
    if log == [] then []
    else TombLog(log[..|log| - 1], reverted) + [Tomb(log[|log| - 1], reverted)]
  }

  function TombAll(flash: Objects, reverted: set<nat>): (g: Objects)
    ensures g.Keys == flash.Keys
  {
    map id | id in flash :: TombLog(flash[id], reverted)
  }

  /** A history with the records of the reverted trx erased. */
  function Without(log: Log, reverted: set<nat>): Log {
    if log == [] then []
    else
      var l := Without(log[..|log| - 1], reverted);
      var r := log[|log| - 1];
      if r.trx in reverted then l else l + [r]
  }

  /** No TRIM was issued by a reverted trx. */
  ghost predicate NoTrimReverted(log: Log, reverted: set<nat>) {
    forall i | 0 <= i < |log| && log[i].kind.Trim? :: log[i].trx !in reverted
  }

  lemma WithoutSnoc(log: Log, r: Record, reverted: set<nat>)
    ensures Without(log + [r], reverted) == Without(log, reverted) + if r.trx in reverted then [] else [r]
  {
    Snoc(log, r);
  }

  lemma TombLogConcat(a: Log, b: Log, reverted: set<nat>)
    ensures TombLog(a + b, reverted) == TombLog(a, reverted) + TombLog(b, reverted)
  {}

  lemma {:induction false} TombUpTo(flash: Objects, reverted: set<nat>, s: nat, n: nat)
    ensures UpTo(TombAll(flash, reverted), s, n) == TombLog(UpTo(flash, s, n), reverted)
  {
    if n > 0 {
      TombUpTo(flash, reverted, s, n - 1);
      TombLogConcat(UpTo(flash, s, n - 1), SoAt(flash, SoId(s, n - 1)), reverted);
    }
  }

  lemma TombLogOf(flash: Objects, reverted: set<nat>, s: nat)
    ensures LogOf(TombAll(flash, reverted), s) == TombLog(LogOf(flash, s), reverted)
  {
    TombUpTo(flash, reverted, s, Top(flash.Keys));
  }

  lemma {:induction false} OfPgTomb(log: Log, reverted: set<nat>, p: Pg)
    ensures OfPg(TombLog(log, reverted), p) == Without(OfPg(log, p), reverted)
  {
    if log != [] {
      var l, r := log[..|log| - 1], log[|log| - 1];
      OfPgTomb(l, reverted, p);
      OfPgSnoc(TombLog(l, reverted), Tomb(r, reverted), p);
      WithoutSnoc(OfPg(l, p), r, reverted);
    }
  }

  lemma {:induction false} OfPgWithout(log: Log, reverted: set<nat>, p: Pg)
    ensures OfPg(Without(log, reverted), p) == Without(OfPg(log, p), reverted)
  {
    if log != [] {
      var l, r := log[..|log| - 1], log[|log| - 1];
      OfPgWithout(l, reverted, p);
      OfPgSnoc(Without(l, reverted), r, p);
      WithoutSnoc(OfPg(l, p), r, reverted);
    }
  }

  lemma {:induction false} WithoutConcat(a: Log, b: Log, reverted: set<nat>)
    ensures Without(a + b, reverted) == Without(a, reverted) + Without(b, reverted)
  {
    if b == [] {
      assert a + b == a;
    } else {
      var b', r := b[..|b| - 1], b[|b| - 1];
      WithoutConcat(a, b', reverted);
      assert a + b == (a + b') + [r] && b == b' + [r];
      WithoutSnoc(a + b', r, reverted);
      WithoutSnoc(b', r, reverted);
    }
  }

  lemma {:induction false} WithoutSubset(log: Log, reverted: set<nat>)
    ensures forall r | r in Without(log, reverted) :: r in log
  {
    if log != [] {
      WithoutSubset(log[..|log| - 1], reverted);
      assert log == log[..|log| - 1] + [log[|log| - 1]];
    }
  }

  lemma {:induction false} TrimOfWithout(log: Log, reverted: set<nat>)
    requires NoTrimReverted(log, reverted)
    ensures TrimOf(Without(log, reverted)) == TrimOf(log)
  {
    if log != [] {
      var l, r := log[..|log| - 1], log[|log| - 1];
      TrimOfWithout(l, reverted);
      TrimOfSnoc(Without(l, reverted), r);
    }
  }

  lemma KeptWithout(all: Log, live: Log, reverted: set<nat>)
    requires Kept(all, live) && NoTrimReverted(live, reverted)
    ensures Kept(Without(all, reverted), Without(live, reverted))
  {
    var d := all[..|all| - |live|];
    assert all == d + live;
    WithoutConcat(d, live, reverted);
    TrimOfWithout(live, reverted);
    WithoutSubset(d, reverted);
    var d', a' := Without(d, reverted), Without(all, reverted);
    forall i | 0 <= i < |d'| ensures Droppable(a'[i], TrimOf(live)) {
      assert d'[i] in d;
      var j :| 0 <= j < |d| && d[j] == d'[i];
      assert Droppable(all[j], TrimOf(live));
    }
  }

  // ----------------------------------------------------------- representation

  /** What is left on flash of the records of one PG, all of them in its home stream. */
  ghost function PgLog(flash: Objects, home: map<Pg, nat>, p: Pg): Log {
    if p in home then OfPg(LogOf(flash, home[p]), p) else []
  }

  ghost predicate HomeAt(flash: Objects, home: map<Pg, nat>, s: nat, p: Pg) {
    OfPg(LogOf(flash, s), p) != [] ==> p in home && home[p] == s
  }

  /** The live records of every PG lie in one stream. */
  ghost predicate OneHome(flash: Objects, home: map<Pg, nat>) {
    forall s: nat, p: Pg :: HomeAt(flash, home, s, p)
  }

  ghost predicate ObjectsOk(flash: Objects) { forall id | id in flash :: LogOk(flash[id]) }

  /** The SOs represent the history: every PG has one home stream, and for every PG only
      records strictly below its trim position are missing. */
  ghost predicate Represents(flash: Objects, home: map<Pg, nat>, history: Log) {
    LogOk(history) && ObjectsOk(flash) && OneHome(flash, home) &&
    forall p: Pg :: Kept(OfPg(history, p), PgLog(flash, home, p))
  }

  lemma LogOfOk(flash: Objects, s: nat)
    requires ObjectsOk(flash)
    ensures LogOk(LogOf(flash, s))
  {
    var log := LogOf(flash, s);
    forall i | 0 <= i < |log| ensures RecordOk(log[i]) {
      InUpTo(flash, s, Top(flash.Keys), log[i]);
    }
  }

  /** Reading any log that keeps a PG's records reads the history of that PG. */
  lemma ReadKept(history: Log, log: Log, k: Key)
    requires WellFormed(k) && CounterOf(k) != UNKNOWN
    requires LogDecoded(history) && LogDecoded(log)
    requires Kept(OfPg(history, PgOf(k)), OfPg(log, PgOf(k)))
    ensures Lookup(Replay(log), k) == Lookup(Replay(history), k)
  {
    var p := PgOf(k);
    LookupOfPg(history, k);
    LookupOfPg(log, k);
    OfPgIdempotent(history, p);
    OfPgIdempotent(log, p);
    OfPgDecoded(history, p);
    KeptLookup(OfPg(history, p), OfPg(log, p), k);
  }

  /** Reading the home stream is reading the history. */
  lemma ReadHome(flash: Objects, home: map<Pg, nat>, history: Log, k: Key)
    requires Represents(flash, home, history)
    requires WellFormed(k) && CounterOf(k) != UNKNOWN
    ensures PgOf(k) in home ==>
              Lookup(Replay(LogOf(flash, home[PgOf(k)])), k) == Lookup(Replay(history), k)
    ensures PgOf(k) !in home ==> Lookup(Replay(history), k).None?
  {
    var p := PgOf(k);
    assert Kept(OfPg(history, p), PgLog(flash, home, p));
    if p in home {
      LogOfOk(flash, home[p]);
      ReadKept(history, LogOf(flash, home[p]), k);
    } else {
      ReadKept(history, [], k);
    }
  }

  lemma AppendStreams(flash: Objects, id: SoId, x: Log, s: nat)
    requires forall j | j in flash && j.stream == id.stream :: j.seqno <= id.seqno
    ensures LogOf(flash[id := SoAt(flash, id) + x], s) ==
            LogOf(flash, s) + if s == id.stream then x else []
  {
    if s == id.stream {
      ExtendLast(flash, id, x);
    } else {
      LogOfSame(flash, flash[id := SoAt(flash, id) + x], s);
    }
  }

  lemma AppendKept(history: Log, log: Log, r: Record, p: Pg)
    requires Kept(OfPg(history, p), OfPg(log, p))
    ensures Kept(OfPg(history + [r], p), OfPg(log + [r], p))
  {
    OfPgSnoc(history, r, p);
    OfPgSnoc(log, r, p);
    if Concerns(r, p) { KeptSnoc(OfPg(history, p), OfPg(log, p), r); }
  }

  /** Appending a record to its PG's home stream. */
  lemma RepresentsAppend(flash: Objects, home: map<Pg, nat>, history: Log, id: SoId, r: Record)
    requires Represents(flash, home, history)
    requires RecordOk(r) && PgOf(r.key) in home && home[PgOf(r.key)] == id.stream
    requires forall j | j in flash && j.stream == id.stream :: j.seqno <= id.seqno
    ensures Represents(flash[id := SoAt(flash, id) + [r]], home, history + [r])
  {
    var g := flash[id := SoAt(flash, id) + [r]];
    assert LogOk(history + [r]) && ObjectsOk(g);
    AppendOneHome(flash, home, id, r);
    forall p: Pg ensures Kept(OfPg(history + [r], p), PgLog(g, home, p)) {
      AppendHome(flash, home, history, id, r, p);
    }
  }

  lemma AppendOneHome(flash: Objects, home: map<Pg, nat>, id: SoId, r: Record)
    requires OneHome(flash, home)
    requires RecordOk(r) && PgOf(r.key) in home && home[PgOf(r.key)] == id.stream
    requires forall j | j in flash && j.stream == id.stream :: j.seqno <= id.seqno
    ensures OneHome(flash[id := SoAt(flash, id) + [r]], home)
  {
    var g := flash[id := SoAt(flash, id) + [r]];
    forall s: nat, p: Pg ensures HomeAt(g, home, s, p) {
      AppendStreams(flash, id, [r], s);
      OfPgSnoc(LogOf(flash, s), r, p);
      assert LogOf(g, s) == LogOf(flash, s) || (s == id.stream && LogOf(g, s) == LogOf(flash, s) + [r]);
      assert HomeAt(flash, home, s, p);
    }
  }

  lemma AppendHome(flash: Objects, home: map<Pg, nat>, history: Log, id: SoId, r: Record, p: Pg)
    requires Kept(OfPg(history, p), PgLog(flash, home, p))
    requires RecordOk(r) && PgOf(r.key) in home && home[PgOf(r.key)] == id.stream
    requires forall j | j in flash && j.stream == id.stream :: j.seqno <= id.seqno
    ensures Kept(OfPg(history + [r], p), PgLog(flash[id := SoAt(flash, id) + [r]], home, p))
  {
    if p in home {
      AppendStreams(flash, id, [r], home[p]);
      if home[p] == id.stream {
        AppendKept(history, LogOf(flash, home[p]), r, p);
      } else {
        OfPgSnoc(history, r, p);
        assert LogOf(flash[id := SoAt(flash, id) + [r]], home[p]) == LogOf(flash, home[p]);
      }
    } else {
      OfPgSnoc(history, r, p);
    }
  }

  /** A PG that has no records may be given any home. */
  lemma RepresentsNewHome(flash: Objects, home: map<Pg, nat>, history: Log, p: Pg, s: nat)
    requires Represents(flash, home, history) && p !in home
    ensures Represents(flash, home[p := s], history)
    ensures OfPg(LogOf(flash, s), p) == []
  {
    var home' := home[p := s];
    forall t: nat, q: Pg ensures HomeAt(flash, home', t, q) {
      assert HomeAt(flash, home, t, q);
    }
    assert HomeAt(flash, home, s, p);
    forall q: Pg ensures Kept(OfPg(history, q), PgLog(flash, home', q)) {
      assert Kept(OfPg(history, q), PgLog(flash, home, q));
    }
  }

  lemma DropStreams(flash: Objects, id: SoId, s: nat)
    requires id in flash
    requires forall j | j in flash && j.stream == id.stream :: id.seqno <= j.seqno
    ensures LogOf(flash, s) == (if s == id.stream then flash[id] else []) + LogOf(flash - {id}, s)
  {
    if s == id.stream {
      DropFirst(flash, id);
    } else {
      LogOfSame(flash, flash - {id}, s);
    }
  }

  lemma DropKept(history: Log, so: Log, log: Log, p: Pg)
    requires Kept(OfPg(history, p), OfPg(so + log, p))
    requires forall r | r in OfPg(so, p) :: Droppable(r, TrimOf(OfPg(so + log, p)))
    ensures Kept(OfPg(history, p), OfPg(log, p)) && TrimOf(OfPg(log, p)) == TrimOf(OfPg(so + log, p))
  {
    OfPgConcat(so, log, p);
    var head, rest := OfPg(so, p), OfPg(log, p);
    forall i | 0 <= i < |head| ensures Droppable(head[i], TrimOf(head + rest)) {
      assert head[i] in head;
    }
    KeptDropHead(OfPg(history, p), head, rest);
  }

  /** Reclaiming the oldest SO of a stream, when everything in it is droppable. */
  lemma RepresentsDrop(flash: Objects, home: map<Pg, nat>, history: Log, id: SoId)
    requires Represents(flash, home, history)
    requires id in flash
    requires forall j | j in flash && j.stream == id.stream :: id.seqno <= j.seqno
    requires forall p: Pg, r | r in OfPg(flash[id], p) :: Droppable(r, TrimOf(PgLog(flash, home, p)))
    ensures Represents(flash - {id}, home, history)
    ensures forall p: Pg :: TrimOf(PgLog(flash - {id}, home, p)) == TrimOf(PgLog(flash, home, p))
  {
    var g := flash - {id};
    DropOneHome(flash, home, id);
    forall p: Pg
      ensures Kept(OfPg(history, p), PgLog(g, home, p))
      ensures TrimOf(PgLog(g, home, p)) == TrimOf(PgLog(flash, home, p))
    {
      assert Kept(OfPg(history, p), PgLog(flash, home, p));
      DropHome(flash, home, history, id, p);
    }
  }

  lemma DropOneHome(flash: Objects, home: map<Pg, nat>, id: SoId)
    requires OneHome(flash, home)
    requires id in flash
    requires forall j | j in flash && j.stream == id.stream :: id.seqno <= j.seqno
    ensures OneHome(flash - {id}, home)
  {
    var g := flash - {id};
    forall s: nat, p: Pg ensures HomeAt(g, home, s, p) {
      DropStreams(flash, id, s);
      OfPgConcat(if s == id.stream then flash[id] else [], LogOf(g, s), p);
      assert HomeAt(flash, home, s, p);
    }
  }

  lemma DropHome(flash: Objects, home: map<Pg, nat>, history: Log, id: SoId, p: Pg)
    requires Kept(OfPg(history, p), PgLog(flash, home, p))
    requires id in flash
    requires forall j | j in flash && j.stream == id.stream :: id.seqno <= j.seqno
    requires forall r | r in OfPg(flash[id], p) :: Droppable(r, TrimOf(PgLog(flash, home, p)))
    ensures Kept(OfPg(history, p), PgLog(flash - {id}, home, p))
    ensures TrimOf(PgLog(flash - {id}, home, p)) == TrimOf(PgLog(flash, home, p))
  {
    if p in home {
      var so := if home[p] == id.stream then flash[id] else [];
      DropStreams(flash, id, home[p]);
      DropKept(history, so, LogOf(flash - {id}, home[p]), p);
    }
  }

  /** Tombstoning the reverted trx represents the history with them erased. */
  lemma RepresentsTomb(flash: Objects, home: map<Pg, nat>, history: Log, reverted: set<nat>)
    requires Represents(flash, home, history) && NoTrimReverted(history, reverted)
    ensures Represents(TombAll(flash, reverted), home, Without(history, reverted))
  {
    var g, h := TombAll(flash, reverted), Without(history, reverted);
    WithoutSubset(history, reverted);
    assert LogOk(h) by {
      forall i | 0 <= i < |h| ensures RecordOk(h[i]) { assert h[i] in history; }
    }
    assert ObjectsOk(g);
    TombOneHome(flash, home, reverted);
    forall p: Pg ensures Kept(OfPg(h, p), PgLog(g, home, p)) {
      assert Kept(OfPg(history, p), PgLog(flash, home, p));
      TombPgLog(flash, home, reverted, p);
      TombKept(history, PgLog(flash, home, p), reverted, p);
    }
  }

  lemma TombPgLog(flash: Objects, home: map<Pg, nat>, reverted: set<nat>, p: Pg)
    ensures PgLog(TombAll(flash, reverted), home, p) == Without(PgLog(flash, home, p), reverted)
  {
    if p in home {
      TombLogOf(flash, reverted, home[p]);
      OfPgTomb(LogOf(flash, home[p]), reverted, p);
    }
  }

  lemma TombOneHome(flash: Objects, home: map<Pg, nat>, reverted: set<nat>)
    requires OneHome(flash, home)
    ensures OneHome(TombAll(flash, reverted), home)
  {
    var g := TombAll(flash, reverted);
    forall s: nat, p: Pg ensures HomeAt(g, home, s, p) {
      TombLogOf(flash, reverted, s);
      OfPgTomb(LogOf(flash, s), reverted, p);
      assert HomeAt(flash, home, s, p);
    }
  }

  lemma TombKept(history: Log, live: Log, reverted: set<nat>, p: Pg)
    requires Kept(OfPg(history, p), live) && NoTrimReverted(history, reverted)
    ensures Kept(OfPg(Without(history, reverted), p), Without(live, reverted))
  {
    var all := OfPg(history, p);
    OfPgWithout(history, reverted, p);
    forall i | 0 <= i < |live| && live[i].kind.Trim? ensures live[i].trx !in reverted {
      assert live[i] == all[|all| - |live|..][i];
      InOfPg(history, p, live[i]);
    }
    KeptWithout(all, live, reverted);
  }

  /** Homes of PGs without records may be forgotten. */
  lemma RepresentsForget(flash: Objects, home: map<Pg, nat>, history: Log, home': map<Pg, nat>)
    requires Represents(flash, home, history)
    requires forall p | p in home' :: p in home && home'[p] == home[p]
    requires forall p | p in home && p !in home' :: OfPg(LogOf(flash, home[p]), p) == []
    ensures Represents(flash, home', history)
  {
    forall s: nat, p: Pg ensures HomeAt(flash, home', s, p) {
      assert HomeAt(flash, home, s, p);
    }
    forall p: Pg ensures Kept(OfPg(history, p), PgLog(flash, home', p)) {
      assert Kept(OfPg(history, p), PgLog(flash, home, p));
    }
  }
}
