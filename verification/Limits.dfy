/** Exactly when reclamation and rollback keep their promises.

    Reclaiming an SO never changes the read of a key unless the key's counter is the
    all-ones word, which `newest` mistakes for "unknown".  Rolling a trx back after an SO
    was reclaimed never changes the read of a key unless it takes back the TRIM that hid the
    key and what is left decides neither that the key is trimmed nor that it is deleted.
    Both conditions are exact. */
module Limits {
  import opened Keys
  import opened LogSpec
  import opened Flash
  import opened Container
  import opened ContainerProofs

  // ------------------------------------------------------------ printing numbers

  /** Decimal notation, as printf's %u and %lu produce it. */
  function Printed(n: nat): (s: seq<byte>)
    ensures s != [] && forall i | 0 <= i < |s| :: IsDigit(s[i])
  {
    if n < 10 then [0x30 + n] else Printed(n / 10) + [0x30 + n % 10]
  }

  lemma {:induction false} PrintedDecimal(n: nat)
    ensures Decimal(Printed(n)) == n
  {
    if n < 10 {
      assert Printed(n)[..0] == [];
    } else {
      PrintedDecimal(n / 10);
      assert Printed(n)[..|Printed(n)| - 1] == Printed(n / 10);
    }
  }

  lemma PrintedInjective(m: nat, n: nat)
    requires Printed(m) == Printed(n)
    ensures m == n
  {
    PrintedDecimal(m);
    PrintedDecimal(n);
  }

  /** Powers of ten. */
  function Tens(n: nat): nat { if n == 0 then 1 else 10 * Tens(n - 1) }

  lemma {:induction false} PrintedLength(n: nat, len: nat)
    requires 0 < len && n < Tens(len)
    ensures |Printed(n)| <= len
  {
    if 10 <= n {
      assert len != 1;
      PrintedLength(n / 10, len - 1);
    }
  }

  lemma {:induction false} DecimalBelow(s: seq<byte>)
    requires forall i | 0 <= i < |s| :: IsDigit(s[i])
    ensures Decimal(s) < Tens(|s|)
  {
    if s != [] {
      assert IsDigit(s[|s| - 1]);
      DecimalBelow(s[..|s| - 1]);
    }
  }

  /** The key with the given counter, PG and tag. */
  function KeyFor(c: nat, p: Pg, tag: seq<byte>): Key { Printed(c) + [SEPARATOR] + p + [SEPARATOR] + tag }

  lemma PgThenTag(p: Pg, tag: seq<byte>)
    requires SEPARATOR !in p
    ensures UpToSeparator(p + [SEPARATOR] + tag) == p
  {
    var s := p + [SEPARATOR] + tag;
    assert forall i | 0 <= i < |p| :: s[i] == p[i] && p[i] in p;
    UpToSeparatorIs(s, |p|);
    assert s[..|p|] == p;
  }

  lemma KeyForDecodes(c: nat, p: Pg, tag: seq<byte>)
    requires SEPARATOR !in p && c < WORD
    ensures var k := KeyFor(c, p, tag); WellFormed(k) && CounterOf(k) == c && PgOf(k) == p
  {
    hide UpToSeparator, Decimal;
    var k, n := KeyFor(c, p, tag), |Printed(c)|;
    PrintedDecimal(c);
    assert k == Printed(c) + ([SEPARATOR] + p + [SEPARATOR] + tag);
    DigitRunIs(k, n);
    assert k[..n] == Printed(c) && k[n] == SEPARATOR;
    assert k[n + 1..] == p + [SEPARATOR] + tag;
    PgThenTag(p, tag);
  }

  // ------------------------------------------------------------------- SO names

  /** make_sokey: "SO_%u_%lu". */
  function SoKey(id: SoId): seq<byte> {
    [0x53, 0x4F, SEPARATOR] + Printed(id.stream) + [SEPARATOR] + Printed(id.seqno)
  }

  lemma NumberName(n: nat, t: seq<byte>)
    ensures UpToSeparator(Printed(n) + [SEPARATOR] + t) == Printed(n)
  {
    var s := Printed(n) + [SEPARATOR] + t;
    UpToSeparatorIs(s, |Printed(n)|);
    assert s[..|Printed(n)|] == Printed(n);
  }

  /** Different SOs have different names on flash. */
  lemma SoKeyInjective(a: SoId, b: SoId)
    requires SoKey(a) == SoKey(b)
    ensures a == b
  {
    var x, y := SoKey(a)[3..], SoKey(b)[3..];
    assert x == Printed(a.stream) + [SEPARATOR] + Printed(a.seqno);
    assert y == Printed(b.stream) + [SEPARATOR] + Printed(b.seqno);
    NumberName(a.stream, Printed(a.seqno));
    NumberName(b.stream, Printed(b.seqno));
    PrintedInjective(a.stream, b.stream);
    assert x[|Printed(a.stream)| + 1..] == Printed(a.seqno);
    assert y[|Printed(b.stream)| + 1..] == Printed(b.seqno);
    PrintedInjective(a.seqno, b.seqno);
  }

  // ------------------------------------------------- reclamation and one key

  /** The test of sostatusreclaimable on an SO that precedes `rest` in its stream, when the
      oldest active trx is `oldest`. */
  ghost predicate ReclaimableSo(so: Log, rest: Log, oldest: nat) {
    MaxTrx(so) < oldest &&
    forall p: Pg :: OfPg(so, p) != [] ==> NewestOf(OfPg(so, p)) < Newest(0, TrimOf(OfPg(so + rest, p)))
  }

  /** What the cached status of a PG decides about the oldest SO. */
  lemma StatusDecides(st: State, s: nat, history: Log, p: Pg)
    requires Inv(st, history) && s in st.streams && st.streams[s].seqOldest < st.streams[s].seqNext
    ensures var so := SoAt(st.disk.flash, SoId(s, st.streams[s].seqOldest));
            && (p in st.streams[s].agers <==> OfPg(so, p) != [])
            && (OfPg(so, p) != [] ==>
                && p in st.pgs && st.pgs[p].newest == NewestOf(OfPg(so, p))
                && st.pgs[p].trim == TrimOf(OfPg(LogOf(All(st.disk), s), p)))
  {
    hide All, AgersOf, MaxTrx, SizeOf, OfPg, LogOf, TrimOf, NewestOf, StreamsOk, ShapeOk, OneHome;
    var id := SoId(s, st.streams[s].seqOldest);
    var so := SoAt(st.disk.flash, id);
    AllAt(st, s, id.seqno);
    assert StatusOk(st, s);
    assert LogOk(so);
    InAgersOf(so, p);
    if OfPg(so, p) != [] {
      SoHome(All(st.disk), HomeOf(st.pgs), id, p);
      assert PgStatusOk(st.pgs[p], OfPg(so, p));
    }
  }

  /** The container decides by that test: its cached status of the oldest SO of a stream
      passes exactly when the SO does, against what the rest of the stream holds. */
  lemma ReclaimableIs(st: State, s: nat, oldest: nat, history: Log)
    requires Inv(st, history) && s in st.streams && st.streams[s].seqOldest < st.streams[s].seqNext
    ensures var id := SoId(s, st.streams[s].seqOldest);
            var so, rest := SoAt(st.disk.flash, id), LogOf(All(st.disk) - {id}, s);
            && LogOf(All(st.disk), s) == so + rest && LogOk(so) && LogOk(rest)
            && (Reclaimable(st, s, oldest) <==> ReclaimableSo(so, rest, oldest))
  {
    hide All, AgersOf, MaxTrx, SizeOf, OfPg, LogOf, TrimOf, NewestOf, StreamsOk, ShapeOk, OneHome, LogOk;
    var x, id := st.streams[s], SoId(s, st.streams[s].seqOldest);
    var so, rest := SoAt(st.disk.flash, id), LogOf(All(st.disk) - {id}, s);
    OldestSplit(st, s, history);
    assert StatusOk(st, s);
    assert x.newestTrx == MaxTrx(so);
    if Reclaimable(st, s, oldest) {
      forall p: Pg ensures OfPg(so, p) != [] ==> NewestOf(OfPg(so, p)) < Newest(0, TrimOf(OfPg(so + rest, p))) {
        StatusDecides(st, s, history, p);
      }
    }
    if ReclaimableSo(so, rest, oldest) {
      forall p | p in x.agers ensures p in st.pgs && st.pgs[p].newest < Newest(0, st.pgs[p].trim) {
        StatusDecides(st, s, history, p);
      }
    }
  }

  lemma OldestSplit(st: State, s: nat, history: Log)
    requires Inv(st, history) && s in st.streams && st.streams[s].seqOldest < st.streams[s].seqNext
    ensures var id := SoId(s, st.streams[s].seqOldest);
            var so, rest := SoAt(st.disk.flash, id), LogOf(All(st.disk) - {id}, s);
            LogOf(All(st.disk), s) == so + rest && LogOk(so) && LogOk(rest)
  {
    hide All, SizeOf, LogOf, StatusOk, PgsOk, OneHome, Kept, OrderOk;
    var id := SoId(s, st.streams[s].seqOldest);
    AllAt(st, s, id.seqno);
    assert StreamOk(st.disk, st.cap, s, st.streams[s]);
    OldestFirst(st, s);
    DropFirst(All(st.disk), id);
    assert ObjectsOk(All(st.disk) - {id});
    LogOfOk(All(st.disk) - {id}, s);
  }

  lemma ReclaimableHead(so: Log, rest: Log, oldest: nat, p: Pg)
    requires ReclaimableSo(so, rest, oldest)
    ensures Kept(OfPg(so + rest, p), OfPg(rest, p))
    ensures forall i | 0 <= i < |OfPg(so, p)| :: Droppable(OfPg(so, p)[i], TrimOf(OfPg(rest, p)))
  {
    hide OfPg, NewestOf, TrimOf, MaxTrx;
    OfPgConcat(so, rest, p);
    var head, tail := OfPg(so, p), OfPg(rest, p);
    forall i | 0 <= i < |head| ensures Droppable(head[i], TrimOf(head + tail)) {
      NewestBounds(head, i);
    }
    assert Kept(head + tail, head + tail) by { KeptItself(head + tail); }
    KeptDropHead(head + tail, head, tail);
  }

  lemma KeptItself(log: Log)
    ensures Kept(log, log)
  {}

  /** Reclamation keeps every read of a key with a known counter. */
  lemma ReclaimSafe(so: Log, rest: Log, oldest: nat, k: Key)
    requires LogDecoded(so + rest) && ReclaimableSo(so, rest, oldest)
    requires WellFormed(k) && CounterOf(k) != UNKNOWN
    ensures Lookup(Replay(so + rest), k) == Lookup(Replay(rest), k)
  {
    hide OfPg, ReclaimableSo, Lookup, Replay;
    ReclaimableHead(so, rest, oldest, PgOf(k));
    assert forall i | 0 <= i < |rest| :: rest[i] == (so + rest)[|so| + i];
    ReadKept(so + rest, rest, k);
  }

  /** The SO and the rest of the stream that lose a key with the all-ones counter. */
  function LostSo(k: Key): Log
    requires WellFormed(k)
  {
    [Record(Write, k, [1], 0, CounterOf(k)), Record(Write, KeyFor(0, PgOf(k), []), [], 0, 0)]
  }

  function LostRest(k: Key): Log
    requires WellFormed(k)
  {
    [Record(Trim, KeyFor(1, PgOf(k), []), [], 0, 1)]
  }

  /** The keys that lose it are no longer than the key. */
  lemma LostKeyLength(k: Key, c: nat)
    requires WellFormed(k) && CounterOf(k) == UNKNOWN && c < 10
    ensures |KeyFor(c, PgOf(k), [])| <= |k|
  {
    hide UpToSeparator;
    var digits := k[..DigitRun(k)];
    DecimalBelow(digits);
    assert Tens(0) == 1 && Tens(1) == 10;
  }

  lemma LostPg(k: Key, q: Pg)
    requires WellFormed(k) && CounterOf(k) == UNKNOWN
    ensures var so, rest, p := LostSo(k), LostRest(k), PgOf(k);
            && OfPg(so, q) == (if q == p then so else [])
            && OfPg(so + rest, q) == (if q == p then so + rest else [])
            && LogDecoded(so + rest)
  {
    var so, rest, p := LostSo(k), LostRest(k), PgOf(k);
    KeyForDecodes(0, p, []);
    KeyForDecodes(1, p, []);
    assert so == [so[0]] + [so[1]];
    OfPgSnoc([], so[0], q);
    OfPgSnoc([so[0]], so[1], q);
    assert [] + [so[0]] == [so[0]];
    assert so + rest == so + [rest[0]];
    OfPgSnoc(so, rest[0], q);
  }

  lemma LostOk(k: Key)
    requires WellFormed(k) && CounterOf(k) == UNKNOWN && |k| < BYTES_PER_LOGGING_OBJECT
    ensures LogOk(LostSo(k) + LostRest(k))
  {
    hide OfPg, CounterOf, WellFormed;
    LostPg(k, PgOf(k));
    LostKeyLength(k, 0);
    LostKeyLength(k, 1);
    var log := LostSo(k) + LostRest(k);
    forall i | 0 <= i < |log| ensures RecordOk(log[i]) {
      assert Decoded(log[i]);
    }
  }

  /** For every key whose counter is the all-ones word, there are an SO and a rest of the
      stream, made of records that the write path accepts, whose reclamation loses it. */
  lemma UnknownCounterLost(k: Key)
    requires WellFormed(k) && CounterOf(k) == UNKNOWN && |k| < BYTES_PER_LOGGING_OBJECT
    ensures ReclaimableSo(LostSo(k), LostRest(k), 1) && LogOk(LostSo(k) + LostRest(k))
    ensures Lookup(Replay(LostSo(k) + LostRest(k)), k) == Some([1])
    ensures Lookup(Replay(LostRest(k)), k) == None
  {
    var so, rest, p := LostSo(k), LostRest(k), PgOf(k);
    forall q: Pg ensures OfPg(so, q) != [] ==> NewestOf(OfPg(so, q)) < Newest(0, TrimOf(OfPg(so + rest, q))) {
      LostPg(k, q);
      LostNewest(k);
      LostTrim(k);
    }
    LostNewest(k);
    LostOk(k);
    LostReads(k);
  }

  lemma LostNewest(k: Key)
    requires WellFormed(k) && CounterOf(k) == UNKNOWN
    ensures NewestOf(LostSo(k)) == 0 && MaxTrx(LostSo(k)) == 0
  {
    var so := LostSo(k);
    NewestSnoc([], so[0]);
    NewestSnoc([so[0]], so[1]);
    assert so[..1] == [so[0]] && so == [so[0]] + [so[1]] && [] + [so[0]] == [so[0]];
    assert MaxTrx([so[0]]) == 0;
  }

  lemma LostTrim(k: Key)
    requires WellFormed(k)
    ensures TrimOf(LostSo(k) + LostRest(k)) == 1
  {
    var so, r := LostSo(k), LostRest(k)[0];
    TrimOfSnoc(so, r);
    TrimOfSnoc([so[0]], so[1]);
    assert [so[0]] + [so[1]] == so && LostRest(k) == [r];
    TrimOfSnoc([], so[0]);
    assert [] + [so[0]] == [so[0]];
  }

  lemma LostKv(k: Key)
    requires WellFormed(k) && CounterOf(k) == UNKNOWN
    ensures var kv := Replay(LostSo(k) + LostRest(k)).kv; Canon(k) in kv && kv[Canon(k)] == [1]
    ensures Canon(k) !in Replay(LostRest(k)).kv
  {
    hide DigitRun, CounterOf, Canon;
    var so, r, p := LostSo(k), LostRest(k)[0], PgOf(k);
    assert Canon(so[1].key) != Canon(k) by {
      KeyForDecodes(0, p, []);
      if Canon(so[1].key) == Canon(k) { EqualKeysAgree(so[1].key, k); }
    }
    assert so[1..] == [so[1]] && LostRest(k) == [r];
    ReplaySnoc([], so[0]);
    assert [] + [so[0]] == [so[0]] && [so[0]] + [so[1]] == so;
    ReplaySnoc([so[0]], so[1]);
    ReplaySnoc(so, r);
    ReplaySnoc([], r);
    assert [] + [r] == [r];
  }

  lemma LostReads(k: Key)
    requires WellFormed(k) && CounterOf(k) == UNKNOWN
    ensures Lookup(Replay(LostSo(k) + LostRest(k)), k) == Some([1])
    ensures Lookup(Replay(LostRest(k)), k) == None
  {
    hide Replay, OfPg, Canon, DigitRun, LostSo, LostRest, TrimOf;
    LostKv(k);
    LostPg(k, PgOf(k));
    LostTrim(k);
    ReplayTrims(LostSo(k) + LostRest(k), PgOf(k));
  }

  /** Reclamation keeps the reads of a key in every stream if and only if the key's counter
      is not the all-ones word. */
  lemma ReclaimSafeIff(k: Key)
    requires WellFormed(k) && |k| < BYTES_PER_LOGGING_OBJECT
    ensures (forall so: Log, rest: Log, oldest: nat ::
               LogOk(so + rest) && ReclaimableSo(so, rest, oldest) ==>
               Lookup(Replay(so + rest), k) == Lookup(Replay(rest), k))
            <==> CounterOf(k) != UNKNOWN
  {
    hide OfPg, ReclaimableSo, Lookup, Replay;
    if CounterOf(k) == UNKNOWN {
      UnknownCounterLost(k);
    } else {
      forall so: Log, rest: Log, oldest: nat | LogOk(so + rest) && ReclaimableSo(so, rest, oldest)
        ensures Lookup(Replay(so + rest), k) == Lookup(Replay(rest), k)
      {
        ReclaimSafe(so, rest, oldest, k);
      }
    }
  }

  // --------------------------------------------------- rollback after reclamation

  /** What the last WRITE or DELETE of a canonical key in a log was. */
  datatype Fate = Untouched | Written | Deleted

  function FateOf(log: Log, ck: Key): Fate {
    if log == [] then Untouched
    else
      var r := log[|log| - 1];
      if Canon(r.key) == ck && r.kind.Write? then Written
      else if Canon(r.key) == ck && r.kind.Delete? then Deleted
      else FateOf(log[..|log| - 1], ck)
  }

  /** The fate of a key in a tail of a log decides whether the key is there; a tail that
      leaves it untouched leaves what came before. */
  lemma {:induction false} FateDecides(a: Log, b: Log, ck: Key)
    ensures FateOf(b, ck).Untouched? ==> AgreeAt(Replay(a + b), Replay(a), ck)
    ensures FateOf(b, ck).Written? ==> ck in Replay(a + b).kv
    ensures FateOf(b, ck).Deleted? ==> ck !in Replay(a + b).kv
  {
    if b == [] {
      assert a + b == a;
    } else {
      var b', r := b[..|b| - 1], b[|b| - 1];
      FateDecides(a, b', ck);
      assert a + b == (a + b') + [r];
      ReplaySnoc(a + b', r);
    }
  }

  /** The trim position of a key's PG in a log. */
  function TrimFor(log: Log, k: Key): nat
    requires WellFormed(k)
  {
    TrimOf(OfPg(log, PgOf(k)))
  }

  /** The log that is left decides the read of a key: nothing below the trim position `t` can
      be about the key, or the key is trimmed, or it is deleted. */
  predicate Settled(t: nat, left: Log, k: Key)
    requires WellFormed(k)
  {
    t == UNKNOWN || t <= CounterOf(k) || Trimmed(TrimFor(left, k), CounterOf(k)) || FateOf(left, Canon(k)).Deleted?
  }

  /** Rolling back after the reclamation reads like rolling back without it. */
  ghost predicate SameRead(so: Log, rest: Log, reverted: set<nat>, k: Key)
    requires WellFormed(k)
  {
    Lookup(Replay(Without(so + rest, reverted)), k) == Lookup(Replay(Without(rest, reverted)), k)
  }

  /** Every record of the PG in `so` lies strictly below the trim position that `rest` records. */
  ghost predicate Below(so: Log, rest: Log, p: Pg) {
    forall i | 0 <= i < |OfPg(so, p)| :: Droppable(OfPg(so, p)[i], TrimOf(OfPg(rest, p)))
  }

  lemma LeftInSo(so: Log, rest: Log, reverted: set<nat>, p: Pg, r: Record)
    requires Below(so, rest, p) && r in OfPg(Without(so, reverted), p)
    ensures Droppable(r, TrimOf(OfPg(rest, p)))
  {
    hide OfPg, TrimOf;
    InOfPg(Without(so, reverted), p, r);
    WithoutSubset(so, reverted);
    InOfPg(so, p, r);
    var i :| 0 <= i < |OfPg(so, p)| && OfPg(so, p)[i] == r;
    assert Droppable(OfPg(so, p)[i], TrimOf(OfPg(rest, p)));
  }

  /** Nothing below the trim position is about a key at or above it. */
  lemma NotInSo(so: Log, rest: Log, reverted: set<nat>, k: Key)
    requires LogDecoded(so) && WellFormed(k) && CounterOf(k) != UNKNOWN && Below(so, rest, PgOf(k))
    requires TrimFor(rest, k) == UNKNOWN || TrimFor(rest, k) <= CounterOf(k)
    ensures forall i | 0 <= i < |Without(so, reverted)| ::
              Without(so, reverted)[i].kind.Tombstone? || Canon(Without(so, reverted)[i].key) != Canon(k)
    ensures !Trimmed(TrimFor(Without(so, reverted), k), CounterOf(k))
  {
    hide OfPg, Below, TrimOf, Without, Canon;
    var d, p := Without(so, reverted), PgOf(k);
    WithoutSubset(so, reverted);
    forall i | 0 <= i < |d| && !d[i].kind.Tombstone? ensures Canon(d[i].key) != Canon(k) {
      assert d[i] in so && Decoded(d[i]);
      if Canon(d[i].key) == Canon(k) {
        EqualKeysAgree(d[i].key, k);
        InOfPg(d, p, d[i]);
        LeftInSo(so, rest, reverted, p, d[i]);
      }
    }
    var own := OfPg(d, p);
    if own == [] {
      NoTrim();
    } else {
      forall i | 0 <= i < |own| ensures Droppable(own[i], TrimFor(rest, k)) {
        LeftInSo(so, rest, reverted, p, own[i]);
      }
      assert Droppable(own[0], TrimFor(rest, k));
      TrimOfBelow(own, TrimFor(rest, k));
    }
  }

  /** A settled key reads the same, whatever lay below the trim position before the rollback. */
  lemma RevertSafe(so: Log, rest: Log, reverted: set<nat>, k: Key)
    requires LogDecoded(so) && WellFormed(k) && CounterOf(k) != UNKNOWN && Below(so, rest, PgOf(k))
    requires Settled(TrimFor(rest, k), Without(rest, reverted), k)
    ensures SameRead(so, rest, reverted, k)
  {
    hide OfPg, Below, Replay, TrimOf, Without, Canon, FateOf;
    var p, ck, c := PgOf(k), Canon(k), CounterOf(k);
    var d, left := Without(so, reverted), Without(rest, reverted);
    WithoutConcat(so, rest, reverted);
    ReplayTrims(d + left, p);
    ReplayTrims(left, p);
    OfPgConcat(d, left, p);
    TrimOfConcat(OfPg(d, p), OfPg(left, p));
    if FateOf(left, ck).Deleted? {
      FateDecides(d, left, ck);
      FateDecides([], left, ck);
      assert [] + left == left;
    } else if !Trimmed(TrimFor(left, k), c) {
      NotInSo(so, rest, reverted, k);
      ReplayAfterPrefix(d, left, ck);
    }
  }

  /** The SO of one record whose reclamation an unsettled rollback shows: a TRIM if the key is
      still written in what is left, otherwise a WRITE. */
  function Telling(rest: Log, reverted: set<nat>, k: Key): Record
    requires WellFormed(k)
  {
    if FateOf(Without(rest, reverted), Canon(k)).Written? then Record(Trim, k, [], 0, CounterOf(k))
    else Record(Write, k, [1], 0, CounterOf(k))
  }

  lemma TellingReclaimable(rest: Log, reverted: set<nat>, k: Key)
    requires WellFormed(k) && CounterOf(k) != UNKNOWN
    requires TrimFor(rest, k) != UNKNOWN && CounterOf(k) < TrimFor(rest, k)
    ensures ReclaimableSo([Telling(rest, reverted, k)], rest, 1)
  {
    hide TrimOf, FateOf;
    var r := Telling(rest, reverted, k);
    assert MaxTrx([r]) == 0;
    forall q: Pg ensures OfPg([r], q) != [] ==> NewestOf(OfPg([r], q)) < Newest(0, TrimOf(OfPg([r] + rest, q))) {
      OfPgSnoc([], r, q);
      assert [] + [r] == [r];
      if q == PgOf(k) {
        OfPgConcat([r], rest, q);
        TrimOfConcat([r], OfPg(rest, q));
        TrimOfSnoc([], r);
        NoTrim();
      }
    }
  }

  lemma TellingReads(rest: Log, reverted: set<nat>, k: Key)
    requires WellFormed(k) && CounterOf(k) != UNKNOWN && 0 !in reverted
    requires !Trimmed(TrimFor(Without(rest, reverted), k), CounterOf(k))
    requires !FateOf(Without(rest, reverted), Canon(k)).Deleted?
    ensures !SameRead([Telling(rest, reverted, k)], rest, reverted, k)
  {
    hide TrimOf, OfPg, FateOf, Canon;
    var r, left, p, ck := Telling(rest, reverted, k), Without(rest, reverted), PgOf(k), Canon(k);
    WithoutConcat([r], rest, reverted);
    WithoutSnoc([], r, reverted);
    assert [] + [r] == [r] && Without([], reverted) == [] && [] + left == left;
    FateDecides([r], left, ck);
    FateDecides([], left, ck);
    ReplaySnoc([], r);
    ReplayTrims([r] + left, p);
    ReplayTrims(left, p);
    OfPgConcat([r], left, p);
    OfPgSnoc([], r, p);
    NoneOfPg(p);
    TrimOfConcat([r], OfPg(left, p));
    TrimOfSnoc([], r);
    NoTrim();
  }

  /** Rolling back transactions that were active when an SO was reclaimed leaves the read of
      a key as it would have been without the reclamation, whatever the SO held, if and only
      if the rollback leaves the key settled.  Trx 0 is no transaction. */
  lemma RevertSafeIff(rest: Log, reverted: set<nat>, k: Key)
    requires LogOk(rest) && 0 !in reverted
    requires WellFormed(k) && CounterOf(k) != UNKNOWN && |k| < BYTES_PER_LOGGING_OBJECT
    ensures (forall so: Log, oldest: nat ::
               LogOk(so) && ReclaimableSo(so, rest, oldest) && (forall u | u in reverted :: oldest <= u) ==>
               SameRead(so, rest, reverted, k))
            <==> Settled(TrimFor(rest, k), Without(rest, reverted), k)
  {
    hide TrimOf, OfPg, ReclaimableSo, SameRead, Without, FateOf;
    if Settled(TrimFor(rest, k), Without(rest, reverted), k) {
      forall so: Log, oldest: nat |
        LogOk(so) && ReclaimableSo(so, rest, oldest) && (forall u | u in reverted :: oldest <= u)
        ensures SameRead(so, rest, reverted, k)
      {
        ReclaimableHead(so, rest, oldest, PgOf(k));
        RevertSafe(so, rest, reverted, k);
      }
    } else {
      var r := Telling(rest, reverted, k);
      TellingReclaimable(rest, reverted, k);
      TellingReads(rest, reverted, k);
      assert LogOk([r]) && ReclaimableSo([r], rest, 1) && !SameRead([r], rest, reverted, k);
    }
  }
}
