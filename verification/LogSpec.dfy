/** Logging records, and what a log of records means.

    The meaning is a last-writer-wins map on keys modulo leading zeros, together with
    one trim position per PG: an object at or below its PG's trim position is absent. */
module LogSpec {
  import opened Keys

  datatype Option<+T> = None | Some(value: T)

  datatype Kind = Tombstone | Write | Delete | Trim
  datatype Record = Record(kind: Kind, key: Key, data: seq<byte>, trx: nat, counter: nat)
  type Log = seq<Record>

  /** Bytes of the fixed part of lrec_t. */
  const LREC_HEADER: nat := 24

  function LrecSize(r: Record): nat { LREC_HEADER + |r.key| + |r.data| }

  function SizeOf(log: Log): nat {
    if log == [] then 0 else SizeOf(log[..|log| - 1]) + LrecSize(log[|log| - 1])
  }

  /** A record as lrecbuild makes it from a key that keydecode accepted. */
  predicate RecordOk(r: Record) {
    && Decoded(r) && |r.key| < BYTES_PER_LOGGING_OBJECT
    && |r.key| + |r.data| <= BYTES_PER_LOGGING_OBJECT
  }

  predicate LogOk(log: Log) { forall i | 0 <= i < |log| :: RecordOk(log[i]) }

  /** A record whose counter is the one its key decodes to. */
  predicate Decoded(r: Record) { WellFormed(r.key) && r.counter == CounterOf(r.key) }

  predicate LogDecoded(log: Log) { forall i | 0 <= i < |log| :: Decoded(log[i]) }

  // ----------------------------------------------------------------- counters

  /** `trimmed`: the counter lies in the trimmed region. */
  predicate Trimmed(trimPos: nat, c: nat) { trimPos != UNKNOWN && c <= trimPos }

  /** `newest`: the larger of two counters, either of which may be unknown. */
  function Newest(a: nat, b: nat): nat {
    if a == UNKNOWN then b
    else if b == UNKNOWN then a
    else if a < b then b else a
  }

  // ------------------------------------------------------------ the reference

  datatype Store = Store(kv: map<Key, seq<byte>>, trims: map<Pg, nat>)

  function Apply(st: Store, r: Record): Store {
    match r.kind
    case Tombstone => st
    case Write => st.(kv := st.kv[Canon(r.key) := r.data])
    case Delete => st.(kv := st.kv - {Canon(r.key)})
    case Trim =>
      if !WellFormed(r.key) then st
      else
        var p := PgOf(r.key);
        st.(trims := st.trims[p := Newest(TrimAt(st, p), r.counter)])
  }

  function TrimAt(st: Store, p: Pg): nat { if p in st.trims then st.trims[p] else UNKNOWN }

  function Replay(log: Log): Store {
    if log == [] then Store(map[], map[])
    else Apply(Replay(log[..|log| - 1]), log[|log| - 1])
  }

  /** Reading a key. */
  function Lookup(st: Store, k: Key): Option<seq<byte>>
    requires WellFormed(k)
  {
    if Canon(k) in st.kv && !Trimmed(TrimAt(st, PgOf(k)), CounterOf(k))
    then Some(st.kv[Canon(k)]) else None
  }

  // ----------------------------------------------------------------- PG views

  predicate Concerns(r: Record, p: Pg) {
    !r.kind.Tombstone? && WellFormed(r.key) && PgOf(r.key) == p
  }

  /** The live records of one PG, in order. */
  function OfPg(log: Log, p: Pg): Log {
    if log == [] then []
    else
      var l := OfPg(log[..|log| - 1], p);
      var r := log[|log| - 1];
      if Concerns(r, p) then l + [r] else l
  }

  lemma {:induction false} InOfPg(log: Log, p: Pg, r: Record)
    ensures r in OfPg(log, p) <==> r in log && Concerns(r, p)
  {
    if log != [] {
      InOfPg(log[..|log| - 1], p, r);
      assert log == log[..|log| - 1] + [log[|log| - 1]];
    }
  }

  lemma NoneOfPg(p: Pg)
    ensures OfPg([], p) == []
  {}

  /** Largest counter among the TRIM records of a log, UNKNOWN if there is none. */
  function TrimOf(log: Log): nat {
    if log == [] then UNKNOWN
    else
      var t := TrimOf(log[..|log| - 1]);
      var r := log[|log| - 1];
      if r.kind.Trim? then Newest(t, r.counter) else t
  }

  lemma Snoc(log: Log, r: Record)
    ensures (log + [r])[..|log|] == log && (log + [r])[|log|] == r
  {}

  lemma SizeOfSnoc(log: Log, r: Record)
    ensures SizeOf(log + [r]) == SizeOf(log) + LrecSize(r)
  {
    Snoc(log, r);
  }

  lemma ReplaySnoc(log: Log, r: Record)
    ensures Replay(log + [r]) == Apply(Replay(log), r)
  {
    Snoc(log, r);
  }

  lemma OfPgSnoc(log: Log, r: Record, p: Pg)
    ensures OfPg(log + [r], p) == OfPg(log, p) + if Concerns(r, p) then [r] else []
  {
    Snoc(log, r);
  }

  lemma TrimOfSnoc(log: Log, r: Record)
    ensures TrimOf(log + [r]) == if r.kind.Trim? then Newest(TrimOf(log), r.counter) else TrimOf(log)
  {
    Snoc(log, r);
  }

  lemma {:induction false} OfPgConcat(a: Log, b: Log, p: Pg)
    ensures OfPg(a + b, p) == OfPg(a, p) + OfPg(b, p)
  {
    if b == [] {
      assert a + b == a;
    } else {
      var b', r := b[..|b| - 1], b[|b| - 1];
      OfPgConcat(a, b', p);
      assert a + b == (a + b') + [r] && b == b' + [r];
      OfPgSnoc(a + b', r, p);
      OfPgSnoc(b', r, p);
    }
  }

  lemma {:induction false} TrimOfConcat(a: Log, b: Log)
    ensures TrimOf(a + b) == Newest(TrimOf(a), TrimOf(b))
  {
    if b == [] {
      assert a + b == a;
    } else {
      var b', r := b[..|b| - 1], b[|b| - 1];
      TrimOfConcat(a, b');
      assert a + b == (a + b') + [r] && b == b' + [r];
      TrimOfSnoc(a + b', r);
      TrimOfSnoc(b', r);
    }
  }

  lemma {:induction false} SizeOfConcat(a: Log, b: Log)
    ensures SizeOf(a + b) == SizeOf(a) + SizeOf(b)
  {
    if b == [] {
      assert a + b == a;
    } else {
      var b', r := b[..|b| - 1], b[|b| - 1];
      SizeOfConcat(a, b');
      assert a + b == (a + b') + [r] && b == b' + [r];
      SizeOfSnoc(a + b', r);
      SizeOfSnoc(b', r);
    }
  }

  /** The trim position a replay ends with is the largest TRIM counter of the PG. */
  lemma {:induction false} ReplayTrims(log: Log, p: Pg)
    ensures TrimAt(Replay(log), p) == TrimOf(OfPg(log, p))
  {
    if log != [] {
      var l, r := log[..|log| - 1], log[|log| - 1];
      ReplayTrims(l, p);
      assert log == l + [r];
      OfPgSnoc(l, r, p);
      TrimOfSnoc(OfPg(l, p), r);
    }
  }

  // ------------------------------------------------------------- what a read means

  /** A WRITE or DELETE of the key, up to leading zeros. */
  predicate Settles(r: Record, k: Key) { (r.kind.Write? || r.kind.Delete?) && Canon(r.key) == Canon(k) }

  /** Record i is the last of them. */
  ghost predicate Decides(log: Log, k: Key, i: nat) {
    i < |log| && Settles(log[i], k) && forall j | i < j < |log| :: !Settles(log[j], k)
  }

  /** The PG has a TRIM at or beyond the key's counter. */
  ghost predicate TrimmedAway(log: Log, k: Key)
    requires WellFormed(k)
  {
    exists r | r in log ::
      r.kind.Trim? && WellFormed(r.key) && PgOf(r.key) == PgOf(k) && r.counter != UNKNOWN && CounterOf(k) <= r.counter
  }

  lemma {:induction false} HoldsIff(log: Log, k: Key, d: seq<byte>)
    ensures Canon(k) in Replay(log).kv && Replay(log).kv[Canon(k)] == d <==>
            exists i: nat :: Decides(log, k, i) && log[i].kind.Write? && log[i].data == d
  {
    if log != [] {
      var l, r := log[..|log| - 1], log[|log| - 1];
      HoldsIff(l, k, d);
      if Settles(r, k) {
        assert Decides(log, k, |log| - 1);
        assert forall i: nat :: Decides(log, k, i) ==> i == |log| - 1;
      } else {
        assert forall i: nat :: Decides(log, k, i) <==> Decides(l, k, i);
      }
    }
  }

  lemma {:induction false} TrimOfAtLeast(log: Log, c: nat)
    ensures Trimmed(TrimOf(log), c) <==> exists r | r in log :: r.kind.Trim? && r.counter != UNKNOWN && c <= r.counter
  {
    if log != [] {
      var l, r := log[..|log| - 1], log[|log| - 1];
      TrimOfAtLeast(l, c);
      assert forall x :: x in log <==> x in l || x == r;
    }
  }

  /** A read finds the data of the last WRITE of the key, if no DELETE of it follows and no TRIM of its PG
      reaches its counter. */
  lemma LookupIs(log: Log, k: Key, d: seq<byte>)
    requires WellFormed(k)
    ensures Lookup(Replay(log), k) == Some(d) <==>
            && (exists i: nat :: Decides(log, k, i) && log[i].kind.Write? && log[i].data == d)
            && !TrimmedAway(log, k)
  {
    HoldsIff(log, k, d);
    ReplayTrims(log, PgOf(k));
    TrimOfAtLeast(OfPg(log, PgOf(k)), CounterOf(k));
    hide Replay, Decides, TrimOf, OfPg, Canon;
    forall r ensures r in OfPg(log, PgOf(k)) <==> r in log && Concerns(r, PgOf(k)) { InOfPg(log, PgOf(k), r); }
  }

  /** Two stores hold the same data under one canonical key. */
  ghost predicate AgreeAt(a: Store, b: Store, ck: Key) {
    (ck in a.kv <==> ck in b.kv) && (ck in a.kv ==> a.kv[ck] == b.kv[ck])
  }

  lemma ApplyAgree(a: Store, b: Store, r: Record, ck: Key)
    requires AgreeAt(a, b, ck)
    ensures AgreeAt(Apply(a, r), Apply(b, r), ck)
  {}

  lemma ApplyElsewhere(a: Store, r: Record, ck: Key)
    requires r.kind.Tombstone? || Canon(r.key) != ck
    ensures AgreeAt(Apply(a, r), a, ck)
  {}

  /** PGs that share a log do not disturb one another: a read sees only its own PG. */
  lemma {:induction false} ReplayKv(log: Log, k: Key)
    requires WellFormed(k) && LogDecoded(log)
    ensures AgreeAt(Replay(log), Replay(OfPg(log, PgOf(k))), Canon(k))
  {
    if log != [] {
      var p, l, r := PgOf(k), log[..|log| - 1], log[|log| - 1];
      ReplayKv(l, k);
      assert log == l + [r] && Decoded(r);
      OfPgSnoc(l, r, p);
      if Concerns(r, p) {
        ReplaySnoc(OfPg(l, p), r);
        ApplyAgree(Replay(l), Replay(OfPg(l, p)), r, Canon(k));
      } else {
        if Canon(r.key) == Canon(k) { EqualKeysAgree(r.key, k); }
        ApplyElsewhere(Replay(l), r, Canon(k));
      }
    }
  }

  lemma OfPgDecoded(log: Log, p: Pg)
    requires LogDecoded(log)
    ensures LogDecoded(OfPg(log, p))
  {
    var l := OfPg(log, p);
    forall i | 0 <= i < |l| ensures Decoded(l[i]) { InOfPg(log, p, l[i]); }
  }

  lemma LookupOfPg(log: Log, k: Key)
    requires WellFormed(k) && LogDecoded(log)
    ensures Lookup(Replay(log), k) == Lookup(Replay(OfPg(log, PgOf(k))), k)
  {
    var p := PgOf(k);
    ReplayKv(log, k);
    ReplayTrims(log, p);
    ReplayTrims(OfPg(log, p), p);
    OfPgIdempotent(log, p);
  }

  lemma {:induction false} OfPgIdempotent(log: Log, p: Pg)
    ensures OfPg(OfPg(log, p), p) == OfPg(log, p)
  {
    if log != [] {
      var l, r := log[..|log| - 1], log[|log| - 1];
      OfPgIdempotent(l, p);
      if Concerns(r, p) { OfPgSnoc(OfPg(l, p), r, p); }
    }
  }

  // ------------------------------------------------- dropping trimmed records

  /** The records of one PG that are kept (`live`) are the tail of all that were ever
      written (`all`), and whatever was dropped lies strictly below the trim position
      that the kept records still record. */
  ghost predicate Kept(all: Log, live: Log) {
    |live| <= |all| && all[|all| - |live|..] == live &&
    forall i | 0 <= i < |all| - |live| :: Droppable(all[i], TrimOf(live))
  }

  ghost predicate Droppable(r: Record, trim: nat) {
    trim != UNKNOWN && (r.counter == UNKNOWN || r.counter < trim)
  }

  lemma {:induction false} TrimOfBelow(log: Log, trim: nat)
    requires trim != UNKNOWN
    requires forall i | 0 <= i < |log| :: Droppable(log[i], trim)
    ensures TrimOf(log) == UNKNOWN || TrimOf(log) < trim
  {
    if log != [] { TrimOfBelow(log[..|log| - 1], trim); }
  }

  /** Dropping keeps every trim position. */
  lemma KeptTrim(all: Log, live: Log)
    requires Kept(all, live)
    ensures TrimOf(all) == TrimOf(live)
  {
    var d := all[..|all| - |live|];
    assert all == d + live;
    TrimOfConcat(d, live);
    if d != [] {
      assert Droppable(all[0], TrimOf(live));
      assert forall i | 0 <= i < |d| :: d[i] == all[i];
      TrimOfBelow(d, TrimOf(live));
    }
  }

  lemma {:induction false} ReplayAfterPrefix(d: Log, live: Log, ck: Key)
    requires forall i | 0 <= i < |d| :: d[i].kind.Tombstone? || Canon(d[i].key) != ck
    ensures AgreeAt(Replay(d + live), Replay(live), ck)
  {
    if live == [] {
      assert d + live == d;
      ReplayWithout(d, ck);
    } else {
      var l, r := live[..|live| - 1], live[|live| - 1];
      ReplayAfterPrefix(d, l, ck);
      assert d + live == (d + l) + [r] && live == l + [r];
      ReplaySnoc(d + l, r);
      ApplyAgree(Replay(d + l), Replay(l), r, ck);
    }
  }

  lemma {:induction false} ReplayWithout(d: Log, ck: Key)
    requires forall i | 0 <= i < |d| :: d[i].kind.Tombstone? || Canon(d[i].key) != ck
    ensures ck !in Replay(d).kv
  {
    if d != [] { ReplayWithout(d[..|d| - 1], ck); }
  }

  /** Dropping changes no read, for every key whose counter is a known one. */
  lemma KeptLookup(all: Log, live: Log, k: Key)
    requires WellFormed(k) && CounterOf(k) != UNKNOWN
    requires LogDecoded(all) && Kept(all, live)
    requires OfPg(all, PgOf(k)) == all && OfPg(live, PgOf(k)) == live
    ensures Lookup(Replay(all), k) == Lookup(Replay(live), k)
  {
    var p := PgOf(k);
    KeptTrim(all, live);
    ReplayTrims(all, p);
    ReplayTrims(live, p);
    var trim := TrimOf(live);
    if !Trimmed(trim, CounterOf(k)) {
      var d := all[..|all| - |live|];
      assert all == d + live;
      forall i | 0 <= i < |d| ensures Canon(d[i].key) != Canon(k) {
        assert d[i] == all[i] && Droppable(all[i], trim);
        if Canon(d[i].key) == Canon(k) { EqualKeysAgree(d[i].key, k); }
      }
      ReplayAfterPrefix(d, live, Canon(k));
    }
  }

  /** One more record at the end keeps the relation: the trim position only grows. */
  lemma KeptSnoc(all: Log, live: Log, r: Record)
    requires Kept(all, live)
    ensures Kept(all + [r], live + [r])
  {
    TrimOfSnoc(live, r);
    var a, l := all + [r], live + [r];
    assert a[|a| - |l|..] == all[|all| - |live|..] + [r];
    forall i | 0 <= i < |a| - |l| ensures Droppable(a[i], TrimOf(l)) {
      assert Droppable(all[i], TrimOf(live));
    }
  }

  /** Dropping the head of the kept records, when all of it is below the trim position. */
  lemma KeptDropHead(all: Log, head: Log, rest: Log)
    requires Kept(all, head + rest)
    requires forall i | 0 <= i < |head| :: Droppable(head[i], TrimOf(head + rest))
    ensures Kept(all, rest) && TrimOf(rest) == TrimOf(head + rest)
  {
    var live, n := head + rest, |all| - |head + rest|;
    assert Kept(live, rest) by {
      if head != [] {
        assert Droppable(head[0], TrimOf(live));
        TrimOfBelow(head, TrimOf(live));
      }
      TrimOfConcat(head, rest);
      assert live[|head|..] == rest;
    }
    KeptTrim(live, rest);
    assert all[n..] == live;
    assert all[|all| - |rest|..] == all[n..][|head|..];
    forall i | 0 <= i < |all| - |rest| ensures Droppable(all[i], TrimOf(rest)) {
      if i >= n { assert all[i] == live[i - n] == head[i - n]; }
    }
  }
}
