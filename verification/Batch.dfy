/** lc_mput and write_records: a batch of objects, many of them copied to a stream buffer
    before one NVRAM write, ends in the state of writing them one by one. */
module Batch {
  import opened Keys
  import opened LogSpec
  import opened Flash
  import opened Container
  import opened ContainerProofs
  import opened Recovery
  import opened Lineage
  import opened LogContainer
  import opened RoundRobin

  /** One object written on its own. */
  ghost function PutOne(st: State, r: Record, oldest: Scans): State {
    if !(st.hand < |st.order|) || !WellFormed(r.key) then st
    else
      var st1 := WithPg(st, PgOf(r.key));
      if st1.pgs[PgOf(r.key)].stream in st1.streams then Written(st1, r, oldest) else st
  }

  ghost function PutAll(st: State, recs: Log, oldest: Scans): State {
    if recs == [] then st else PutOne(PutAll(st, recs[..|recs| - 1], oldest), recs[|recs| - 1], oldest)
  }

  /** A batch deals new PGs in turn like any other writes. */
  lemma {:induction false} PutAllDeals(st: State, recs: Log, oldest: Scans)
    requires st.hand < |st.order|
    ensures Deals(st, PutAll(st, recs, oldest))
  {
    if recs == [] {
      DealtNone(st, st);
    } else {
      hide Dealt, WithPg, Written;
      var before, r := PutAll(st, recs[..|recs| - 1], oldest), recs[|recs| - 1];
      PutAllDeals(st, recs[..|recs| - 1], oldest);
      assert before.hand < |before.order| by { DealsHand(st, before); }
      DealtNone(before, before);
      if WellFormed(r.key) {
        assert PgOf(r.key) in WithPg(before, PgOf(r.key)).pgs by { WithPgHas(before, PgOf(r.key)); }
        if WithPg(before, PgOf(r.key)).pgs[PgOf(r.key)].stream in WithPg(before, PgOf(r.key)).streams {
          WrittenDeals(before, r, oldest);
        }
      }
      hide Deals;
      DealsThen(st, before, PutAll(st, recs, oldest));
    }
  }

  lemma WithPgHas(st: State, p: Pg)
    requires st.hand < |st.order|
    ensures p in WithPg(st, p).pgs
  {}

  lemma DealsHand(st: State, st': State)
    requires Deals(st, st')
    ensures st'.hand < |st'.order|
  {}

  lemma PutAllSnoc(st: State, recs: Log, r: Record, oldest: Scans)
    ensures PutAll(st, recs + [r], oldest) == PutOne(PutAll(st, recs, oldest), r, oldest)
  {
    hide PutOne;
    Snoc(recs, r);
  }

  lemma {:induction false} PutAllConcat(st: State, a: Log, b: Log, oldest: Scans)
    ensures PutAll(st, a + b, oldest) == PutAll(PutAll(st, a, oldest), b, oldest)
  {
    hide PutOne;
    if b == [] {
      assert a + b == a;
    } else {
      var b', r := b[..|b| - 1], b[|b| - 1];
      PutAllConcat(st, a, b', oldest);
      assert a + b == (a + b') + [r] && b == b' + [r];
      PutAllSnoc(st, a + b', r, oldest);
      PutAllSnoc(PutAll(st, a, oldest), b', r, oldest);
    }
  }

  lemma PutOneIs(st: State, r: Record, oldest: Scans, history: Log)
    requires Inv(st, history) && RecordOk(r)
    ensures var st1 := WithPg(st, PgOf(r.key));
            && Inv(st1, history) && PgOf(r.key) in st1.pgs && st1.pgs[PgOf(r.key)].stream in st1.streams
            && PutOne(st, r, oldest) == Written(st1, r, oldest)
  {
    hide Represents, ShapeOk, StatusOk, PgsOk, OrderOk, Written;
    WithPgInv(st, PgOf(r.key), history);
  }

  // ------------------------------------------------------- the copied records

  /** Records copied to the buffer of stream `s` but not yet written to NVRAM. */
  ghost function Buffered(st: State, s: nat, pending: Log): State
    requires s in st.streams
  {
    var x := st.streams[s];
    st.(streams := st.streams[s := x.(buf := x.buf + pending, bufNexti := x.bufNexti + SizeOf(pending))])
  }

  ghost predicate Copyable(st: State, s: nat, pending: Log) {
    && s in st.streams && st.streams[s].buf != []
    && st.streams[s].bufNexti + SizeOf(pending) <= st.cap
    && forall i | 0 <= i < |pending| :: AtHome(st, s, pending[i])
  }

  ghost predicate AtHome(st: State, s: nat, r: Record) {
    RecordOk(r) && r.kind.Write? && PgOf(r.key) in st.pgs && st.pgs[PgOf(r.key)].stream == s
  }

  /** The state after the copied records are written to NVRAM in one go. */
  ghost function Committed(st: State, s: nat, pending: Log): State
    requires s in st.streams
  {
    var st1, x := Buffered(st, s, pending), st.streams[s];
    st1.(disk := st.disk.(nv := st.disk.nv[s := NvLive(x.seqNext, x.buf + pending)]))
  }

  lemma CommittedSnoc(st: State, s: nat, pending: Log, r: Record)
    requires s in st.streams
    ensures Committed(st, s, pending + [r]) == Appended(Committed(st, s, pending), s, r)
  {
    hide SizeOf;
    var x, st1, st2 := st.streams[s], Committed(st, s, pending), Committed(st, s, pending + [r]);
    SizeOfSnoc(pending, r);
    assert x.buf + (pending + [r]) == (x.buf + pending) + [r];
    assert st2.streams == Appended(st1, s, r).streams;
    assert st2.disk.nv == Appended(st1, s, r).disk.nv;
  }

  lemma CommittedNone(st: State, s: nat, history: Log)
    requires Inv(st, history) && s in st.streams && st.streams[s].buf != []
    ensures Committed(st, s, []) == st
  {
    hide Inv;
    NvMirrors(st, s, history);
    var x := st.streams[s];
    assert x.buf + [] == x.buf;
    assert st.streams[s := x] == st.streams;
    assert st.disk.nv[s := NvLive(x.seqNext, x.buf)] == st.disk.nv;
  }

  /** One NVRAM write for the whole run of copied records is as good as one for each. */
  lemma {:induction false} CommittedIsPutAll(st: State, s: nat, pending: Log, oldest: Scans, history: Log)
    requires Inv(st, history) && Copyable(st, s, pending)
    ensures Committed(st, s, pending) == PutAll(st, pending, oldest)
    ensures Inv(Committed(st, s, pending), history + pending)
  {
    hide Inv, PutOne, Committed, RecordOk, SizeOf;
    if pending == [] {
      CommittedNone(st, s, history);
      assert history + [] == history;
    } else {
      var l, r := pending[..|pending| - 1], pending[|pending| - 1];
      assert pending == l + [r] && AtHome(st, s, r);
      SizeOfSnoc(l, r);
      assert forall i | 0 <= i < |l| :: l[i] == pending[i];
      CommittedIsPutAll(st, s, l, oldest, history);
      CommittedSnoc(st, s, l, r);
      PutAllSnoc(st, l, r, oldest);
      CommittedFields(st, s, l);
      PutFitting(Committed(st, s, l), s, r, oldest, history + l);
      assert history + pending == (history + l) + [r];
    }
  }

  lemma CommittedFields(st: State, s: nat, pending: Log)
    requires s in st.streams
    ensures var st' := Committed(st, s, pending);
            && s in st'.streams && st'.pgs == st.pgs && st'.cap == st.cap
            && st'.streams[s].bufNexti == st.streams[s].bufNexti + SizeOf(pending)
  {}

  lemma PutFitting(st: State, s: nat, r: Record, oldest: Scans, history: Log)
    requires Inv(st, history) && s in st.streams && AtHome(st, s, r) && Fits(st, s, r)
    ensures PutOne(st, r, oldest) == Appended(st, s, r)
    ensures Inv(Appended(st, s, r), history + [r])
  {
    hide Inv;
    PutOneIs(st, r, oldest, history);
    AppendedInv(st, s, r, history);
  }

  // ------------------------------------------------------------ crash points

  /** The disk stands for the old history and a prefix of the batch. */
  ghost predicate PrefixSurvives(d: Disk, history: Log, recs: Log) {
    exists home: map<Pg, nat>, m: nat :: m <= |recs| && Survives(d, home, history + recs[..m])
  }

  ghost predicate BatchSurvives(before: seq<Disk>, after: seq<Disk>, history: Log, recs: Log) {
    |before| <= |after| && after[..|before|] == before &&
    forall i | |before| <= i < |after| :: PrefixSurvives(after[i], history, recs)
  }

  lemma PrefixAt(d: Disk, home: map<Pg, nat>, history: Log, recs: Log, m: nat)
    requires m <= |recs| && Survives(d, home, history + recs[..m])
    ensures PrefixSurvives(d, history, recs)
  {}

  /** A landed single write is a step of the batch. */
  lemma LandedPrefix(before: seq<Disk>, mid: seq<Disk>, after: seq<Disk>, home: map<Pg, nat>, history: Log, recs: Log, m: nat)
    requires m < |recs| && BatchSurvives(before, mid, history, recs)
    requires Landed(mid, after, home, history + recs[..m], history + recs[..m + 1])
    ensures BatchSurvives(before, after, history, recs)
  {
    hide Survives, PrefixSurvives;
    var most := after[..|after| - 1];
    assert after[..|before|] == most[..|mid|][..|before|];
    forall i | |before| <= i < |after| ensures PrefixSurvives(after[i], history, recs) {
      if i < |mid| {
        assert after[i] == most[i] == most[..|mid|][i];
      } else if i < |after| - 1 {
        assert most[i] == after[i];
        PrefixAt(after[i], home, history, recs, m);
      } else {
        PrefixAt(after[i], home, history, recs, m + 1);
      }
    }
  }

  // ------------------------------------------------------------ write_records

  /** Write the copied records at the end of the buffer to NVRAM. */
  method Commit(c: Lc, s: nat, copied: nat, ghost base: State, ghost history: Log, ghost oldest: Scans)
    requires Inv(base, history) && s in base.streams && s in c.streams && copied <= |c.streams[s].buf|
    requires var pending := c.streams[s].buf[|c.streams[s].buf| - copied..];
             Copyable(base, s, pending) && c.St() == Buffered(base, s, pending)
    requires Descends(c.start, c.trace, c.OnDisk())
    modifies c`nv, c`trace, c`history
    ensures var pending := old(c.streams)[s].buf[|old(c.streams)[s].buf| - copied..];
            && c.St() == PutAll(base, pending, oldest)
            && c.history == history + pending && c.Valid()
    ensures c.trace == old(c.trace) + [c.OnDisk()] && Survives(c.OnDisk(), HomeOf(c.pgs), c.history)
  {
    hide Inv, Survives, PutAll, Copyable, SizeOf, Descends, Later;
    ghost var t := c.trace;
    var x := c.streams[s];
    var pending := x.buf[|x.buf| - copied..];
    assert base.streams[s].buf != [] && s in base.disk.nv by { CopyableStream(base, s, pending, history); }
    NvMirrors(base, s, history);
    c.AppendNv(s, x.seqNext, pending);
    CommittedIsPutAll(base, s, pending, oldest, history);
    assert c.St() == Committed(base, s, pending);
    c.history := history + pending;
    InvSurvives(c.St(), c.history);
    InvParts(base, history);
    AppendedLater(base, s, base.streams[s].buf + pending);
    DescendsStep(c.start, t, base.disk, c.OnDisk());
  }

  lemma CopyableStream(st: State, s: nat, pending: Log, history: Log)
    requires Inv(st, history) && Copyable(st, s, pending)
    ensures st.streams[s].buf != [] && s in st.disk.nv
  {
    NvMirrors(st, s, history);
  }

  /** What write_records has done after `done` records, the last `copied` of which are in a
      buffer only. */
  ghost predicate Progress(st: State, base: State, ss: Option<nat>, copied: Log) {
    if copied == [] then ss.None? && st == base
    else ss.Some? && Copyable(base, ss.value, copied) && st == Buffered(base, ss.value, copied)
  }

  lemma ProgressStart(st: State, s: nat, r: Record, history: Log)
    requires Inv(st, history) && s in st.streams && AtHome(st, s, r) && Fits(st, s, r) && st.streams[s].bufNexti != 0
    ensures Copyable(st, s, [r]) && SizeOf([r]) == LrecSize(r)
  {
    hide StatusOk, PgsOk, Represents, OrderOk;
    assert StreamOk(st.disk, st.cap, s, st.streams[s]);
    SizeOfSnoc([], r);
    assert [] + [r] == [r];
  }

  lemma ProgressMore(base: State, s: nat, pending: Log, r: Record)
    requires Copyable(base, s, pending) && AtHome(base, s, r)
    requires LrecSize(r) + Buffered(base, s, pending).streams[s].bufNexti <= base.cap
    ensures Copyable(base, s, pending + [r])
    ensures var x := Buffered(base, s, pending).streams[s];
            Buffered(base, s, pending + [r]) ==
            Buffered(base, s, pending).(streams := base.streams[s := x.(buf := x.buf + [r], bufNexti := x.bufNexti + LrecSize(r))])
  {
    hide SizeOf, AtHome;
    SizeOfSnoc(pending, r);
    assert base.streams[s].buf + (pending + [r]) == (base.streams[s].buf + pending) + [r];
  }

  /** The fast path of write_records for one record, if it can be taken. */
  method TryCopy(c: Lc, ss: Option<nat>, r: Record, p: Pg, ghost base: State, ghost pending: Log, ghost history: Log)
    returns (took: bool, ss': Option<nat>)
    requires Inv(base, history) && Progress(c.St(), base, ss, pending)
    requires RecordOk(r) && r.kind.Write? && PgOf(r.key) == p
    modifies c`streams
    ensures took ==> Progress(c.St(), base, ss', pending + [r])
    ensures !took ==> c.St() == old(c.St())
  {
    hide Inv, RecordOk, Copyable, SizeOf;
    took, ss' := false, ss;
    if p in c.pgs {
      HomeKnown(base, p, history);
      var s := c.pgs[p].stream;
      var s0 := if ss.Some? then ss.value else s;
      if s == s0 && s in c.streams && c.streams[s].bufNexti != 0 && LrecSize(r) + c.streams[s].bufNexti <= c.cap {
        if ss.None? {
          ProgressStart(base, s, r, history);
          assert pending + [r] == [r];
        } else {
          ProgressMore(base, s, pending, r);
        }
        var x := c.streams[s];
        c.streams := c.streams[s := x.(buf := x.buf + [r], bufNexti := x.bufNexti + LrecSize(r))];
        took, ss' := true, Some(s);
      }
    }
  }

  lemma ProgressTail(st: State, base: State, ss: Option<nat>, pending: Log)
    requires Progress(st, base, ss, pending) && pending != []
    ensures ss.value in base.streams && ss.value in st.streams && |pending| <= |st.streams[ss.value].buf|
    ensures var b := st.streams[ss.value].buf; b[|b| - |pending|..] == pending
  {}

  method WriteRecords(c: Lc, recs: Log, oldest: Scans) returns (written: nat)
    requires c.Valid() && LogOk(recs) && forall i | 0 <= i < |recs| :: recs[i].kind.Write?
    modifies c
    ensures c.Valid() && written == |recs| && c.history == old(c.history) + recs
    ensures c.St() == PutAll(old(c.St()), recs, oldest)
    ensures BatchSurvives(old(c.trace), c.trace, old(c.history), recs)
  {
    hide Inv, PutAll, RecordOk, PrefixSurvives, Progress, Descends;
    var ss: Option<nat>, copied := None, 0;
    written := 0;
    ghost var base, h0 := c.St(), c.history;
    assert Progress(c.St(), base, ss, recs[0..0]) by { ProgressNone(base, recs); }
    assert base == PutAll(base, recs[..0], oldest) by { PutNone(base, recs, oldest); }
    assert h0 == h0 + recs[..0];
    for i := 0 to |recs|
      invariant written + copied == i
      invariant base == PutAll(old(c.St()), recs[..written], oldest) && Inv(base, c.history)
      invariant c.history == h0 + recs[..written]
      invariant Progress(c.St(), base, ss, recs[written..i])
      invariant BatchSurvives(old(c.trace), c.trace, h0, recs) && Descends(c.start, c.trace, c.OnDisk())
    {
      var r := recs[i];
      assert RecordOk(r);
      var p := DecodePg(r);
      var took, ss' := TryCopy(c, ss, r, p, base, recs[written..i], c.history);
      assert recs[written..i] + [r] == recs[written..i + 1];
      if took {
        ss, copied := ss', copied + 1;
      } else {
        if copied > 0 {
          CommitCopied(c, ss, copied, base, recs, written, i, old(c.St()), old(c.trace), h0, oldest);
          base := c.St();
          written, copied, ss := written + copied, 0, None;
        } else {
          ProgressIs(c.St(), base, ss, recs[written..i]);
        }
        WriteSlowly(c, r, p, recs, i, old(c.St()), old(c.trace), h0, oldest);
        base := c.St();
        written := written + 1;
        ss := None;
        assert Progress(c.St(), base, ss, recs[written..i + 1]) by { ProgressNothing(base, recs[written..i + 1]); }
      }
    }
    if copied > 0 {
      CommitCopied(c, ss, copied, base, recs, written, |recs|, old(c.St()), old(c.trace), h0, oldest);
      written := written + copied;
    } else {
      ProgressIs(c.St(), base, ss, recs[written..|recs|]);
    }
    assert recs[..|recs|] == recs;
  }

  method DecodePg(r: Record) returns (p: Pg)
    requires RecordOk(r)
    ensures p == PgOf(r.key)
  {
    var _, pgBase, pgLen, _ := KeyDecode(r.key);
    p := r.key[pgBase..pgBase + pgLen];
  }

  lemma ProgressNone(base: State, recs: Log)
    ensures Progress(base, base, None, recs[0..0])
  {}

  lemma ProgressNothing(base: State, pending: Log)
    requires pending == []
    ensures Progress(base, base, None, pending)
  {}

  lemma ProgressIs(st: State, base: State, ss: Option<nat>, pending: Log)
    requires Progress(st, base, ss, pending) && pending == []
    ensures st == base && ss.None?
  {}

  lemma PutNone(st: State, recs: Log, oldest: Scans)
    ensures PutAll(st, recs[..0], oldest) == st
  {}

  lemma Joined(h0: Log, recs: Log, written: nat, i: nat)
    requires written <= i <= |recs|
    ensures recs[..written] + recs[written..i] == recs[..i]
    ensures (h0 + recs[..written]) + recs[written..i] == h0 + recs[..i]
  {}

  /** Commit the copied records recs[written..i]. */
  method CommitCopied(c: Lc, ss: Option<nat>, copied: nat, ghost base: State, ghost recs: Log, ghost written: nat, ghost i: nat,
                      ghost st0: State, ghost t0: seq<Disk>, ghost h0: Log, ghost oldest: Scans)
    requires written + copied == i <= |recs| && copied > 0
    requires base == PutAll(st0, recs[..written], oldest) && Inv(base, c.history)
    requires c.history == h0 + recs[..written] && Progress(c.St(), base, ss, recs[written..i])
    requires BatchSurvives(t0, c.trace, h0, recs) && Descends(c.start, c.trace, c.OnDisk())
    modifies c`nv, c`trace, c`history
    ensures c.St() == PutAll(st0, recs[..i], oldest) && c.Valid() && c.history == h0 + recs[..i]
    ensures BatchSurvives(t0, c.trace, h0, recs)
  {
    hide Inv, PutAll, Copyable, SizeOf, PrefixSurvives, Survives, Buffered, Descends;
    ghost var pending := recs[written..i];
    ProgressTail(c.St(), base, ss, pending);
    Joined(h0, recs, written, i);
    PutAllConcat(st0, recs[..written], pending, oldest);
    Commit(c, ss.value, copied, base, c.history, oldest);
    PrefixAt(c.OnDisk(), HomeOf(c.pgs), h0, recs, i);
  }

  /** The slow path of write_records for one record. */
  method WriteSlowly(c: Lc, r: Record, p: Pg, ghost recs: Log, ghost i: nat,
                     ghost st0: State, ghost t0: seq<Disk>, ghost h0: Log, oldest: Scans)
    requires i < |recs| && recs[i] == r && RecordOk(r) && p == PgOf(r.key)
    requires c.Valid() && c.St() == PutAll(st0, recs[..i], oldest) && c.history == h0 + recs[..i]
    requires BatchSurvives(t0, c.trace, h0, recs)
    modifies c
    ensures c.Valid() && c.St() == PutAll(st0, recs[..i + 1], oldest) && c.history == h0 + recs[..i + 1]
    ensures BatchSurvives(t0, c.trace, h0, recs)
  {
    hide Inv, PutAll, PutOne, Written, Landed, BatchSurvives, RecordOk, Descends;
    assert WellFormed(r.key) by { assert RecordOk(r); RecordWellFormed(r); }
    PutOneIs(c.St(), r, oldest, c.history);
    assert recs[..i + 1] == recs[..i] + [r];
    PutAllSnoc(st0, recs[..i], r, oldest);
    assert (h0 + recs[..i]) + [r] == h0 + recs[..i + 1];
    ghost var mid := c.trace;
    c.PgLookup(p);
    c.WriteToPg(r, oldest);
    LandedPrefix(t0, mid, c.trace, HomeOf(c.pgs), h0, recs, i);
  }

  lemma RecordWellFormed(r: Record)
    requires RecordOk(r)
    ensures WellFormed(r.key)
  {}

  // ------------------------------------------------------------------- lc_mput

  datatype Object = Object(key: Key, data: seq<byte>)

  const TMPBUFSZ: nat := 65536

  function RecordFor(o: Object, trx: nat): Record { Record(Write, o.key, o.data, trx, CounterOf(o.key)) }

  function RecordsFor(objs: seq<Object>, trx: nat): (recs: Log)
    ensures |recs| == |objs| && forall i | 0 <= i < |objs| :: recs[i] == RecordFor(objs[i], trx)
  {
    seq(|objs|, i requires 0 <= i < |objs| => RecordFor(objs[i], trx))
  }

  predicate AcceptableAll(objs: seq<Object>) {
    forall i | 0 <= i < |objs| :: Acceptable(objs[i].key, objs[i].data)
  }

  /** How many objects lc_mput writes, when objs[written..i] fill `size` bytes of the temporary
      buffer: all of them, or up to the last time the buffer was emptied before the first
      refused object. */
  function PutCount(objs: seq<Object>, i: nat, written: nat, size: nat): (n: nat)
    requires written <= i <= |objs|
    ensures written <= n <= |objs|
    decreases |objs| - i
  {
    if i == |objs| then i
    else if !Acceptable(objs[i].key, objs[i].data) then written
    else
      var sz := LREC_HEADER + |objs[i].key| + |objs[i].data|;
      if sz + size > TMPBUFSZ then PutCount(objs, i + 1, i, sz) else PutCount(objs, i + 1, written, size + sz)
  }

  lemma PutCountIs(objs: seq<Object>, i: nat, written: nat, size: nat)
    requires written <= i < |objs|
    ensures var sz := LREC_HEADER + |objs[i].key| + |objs[i].data|;
            PutCount(objs, i, written, size) ==
            if !Acceptable(objs[i].key, objs[i].data) then written
            else if sz + size > TMPBUFSZ then PutCount(objs, i + 1, i, sz) else PutCount(objs, i + 1, written, size + sz)
  {}

  lemma PutCountAll(objs: seq<Object>, written: nat, size: nat)
    requires written <= |objs|
    ensures PutCount(objs, |objs|, written, size) == |objs|
  {}

  /** Bytes that objs[i..j] take in the temporary buffer. */
  function BytesOf(objs: seq<Object>, i: nat, j: nat): nat
    requires i <= j <= |objs|
  {
    if i == j then 0 else BytesOf(objs, i, j - 1) + LREC_HEADER + |objs[j - 1].key| + |objs[j - 1].data|
  }

  /** The objects from `lo` up to `hi` filled the temporary buffer: they fit, and one more does not. */
  ghost predicate Filled(objs: seq<Object>, lo: nat, hi: nat) {
    lo < hi < |objs| && BytesOf(objs, lo, hi) <= TMPBUFSZ < BytesOf(objs, lo, hi + 1)
  }

  /** The places where the temporary buffer was emptied, from the first object on. */
  ghost predicate Cuts(objs: seq<Object>, cuts: seq<nat>) {
    && cuts != [] && cuts[0] == 0 && (forall i | 0 <= i < |cuts| :: cuts[i] <= |objs|)
    && forall i | 0 <= i < |cuts| - 1 :: Filled(objs, cuts[i], cuts[i + 1])
  }

  lemma CutsMore(objs: seq<Object>, cuts: seq<nat>, hi: nat)
    requires Cuts(objs, cuts) && Filled(objs, cuts[|cuts| - 1], hi)
    ensures Cuts(objs, cuts + [hi])
  {
    hide Filled;
    var more := cuts + [hi];
    assert hi <= |objs| by { FilledWithin(objs, cuts[|cuts| - 1], hi); }
    forall i | 0 <= i < |more| - 1 ensures Filled(objs, more[i], more[i + 1]) {
      if i < |cuts| - 1 { assert Filled(objs, cuts[i], cuts[i + 1]); }
    }
  }

  lemma FilledWithin(objs: seq<Object>, lo: nat, hi: nat)
    requires Filled(objs, lo, hi)
    ensures hi <= |objs|
  {}

  lemma {:induction false} PutCountFrom(objs: seq<Object>, i: nat, cuts: seq<nat>, f: nat) returns (cuts': seq<nat>)
    requires Cuts(objs, cuts) && cuts != [] && cuts[|cuts| - 1] <= i <= f < |objs|
    requires BytesOf(objs, cuts[|cuts| - 1], i) <= TMPBUFSZ && (cuts[|cuts| - 1] == i ==> i == 0)
    requires !Acceptable(objs[f].key, objs[f].data) && forall m | i <= m < f :: Acceptable(objs[m].key, objs[m].data)
    ensures Cuts(objs, cuts') && cuts' != [] && cuts'[|cuts'| - 1] <= f && BytesOf(objs, cuts'[|cuts'| - 1], f) <= TMPBUFSZ
    ensures PutCount(objs, i, cuts[|cuts| - 1], BytesOf(objs, cuts[|cuts| - 1], i)) == cuts'[|cuts'| - 1]
    decreases f - i
  {
    hide Cuts, Acceptable, Filled;
    var lo := cuts[|cuts| - 1];
    PutCountIs(objs, i, lo, BytesOf(objs, lo, i));
    if i == f {
      cuts' := cuts;
    } else {
      var sz := LREC_HEADER + |objs[i].key| + |objs[i].data|;
      assert BytesOf(objs, lo, i + 1) == BytesOf(objs, lo, i) + sz;
      assert BytesOf(objs, i, i) == 0 && BytesOf(objs, i, i + 1) == sz;
      if sz + BytesOf(objs, lo, i) > TMPBUFSZ {
        SmallRecord(objs[i]);
        FilledHere(objs, lo, i);
        CutsMore(objs, cuts, i);
        cuts' := PutCountFrom(objs, i + 1, cuts + [i], f);
      } else {
        cuts' := PutCountFrom(objs, i + 1, cuts, f);
      }
    }
  }

  lemma FilledHere(objs: seq<Object>, lo: nat, hi: nat)
    requires lo < hi < |objs| && BytesOf(objs, lo, hi) <= TMPBUFSZ < BytesOf(objs, lo, hi + 1)
    ensures Filled(objs, lo, hi)
  {}

  /** One record always fits the temporary buffer. */
  lemma SmallRecord(o: Object)
    requires Acceptable(o.key, o.data)
    ensures LREC_HEADER + |o.key| + |o.data| <= TMPBUFSZ
  {}

  lemma {:induction false} PutCountWhole(objs: seq<Object>, i: nat, written: nat, size: nat)
    requires written <= i <= |objs| && forall m | i <= m < |objs| :: Acceptable(objs[m].key, objs[m].data)
    ensures PutCount(objs, i, written, size) == |objs|
    decreases |objs| - i
  {
    hide Acceptable;
    if i < |objs| {
      var sz := LREC_HEADER + |objs[i].key| + |objs[i].data|;
      PutCountIs(objs, i, written, size);
      if sz + size > TMPBUFSZ { PutCountWhole(objs, i + 1, i, sz); } else { PutCountWhole(objs, i + 1, written, size + sz); }
    }
  }

  /** Which objects a batch writes: all of them if none is refused; else those before the last place, up
      to the first refused object, at which the temporary buffer was full.  What is dropped before the
      refused object fits the temporary buffer. */
  lemma PutCountCovers(objs: seq<Object>)
    ensures AcceptableAll(objs) ==> PutCount(objs, 0, 0, 0) == |objs|
    ensures forall f: nat | f < |objs| && !Acceptable(objs[f].key, objs[f].data) && AcceptableAll(objs[..f]) ::
              exists cuts :: Cuts(objs, cuts) && PutCount(objs, 0, 0, 0) == cuts[|cuts| - 1] <= f &&
                             BytesOf(objs, cuts[|cuts| - 1], f) <= TMPBUFSZ
  {
    hide Acceptable, PutCount;
    if AcceptableAll(objs) { PutCountWhole(objs, 0, 0, 0); }
    forall f: nat | f < |objs| && !Acceptable(objs[f].key, objs[f].data) && AcceptableAll(objs[..f])
      ensures exists cuts :: Cuts(objs, cuts) && PutCount(objs, 0, 0, 0) == cuts[|cuts| - 1] <= f &&
                             BytesOf(objs, cuts[|cuts| - 1], f) <= TMPBUFSZ
    {
      assert forall m | 0 <= m < f :: objs[m] == objs[..f][m];
      assert BytesOf(objs, 0, 0) == 0 && Cuts(objs, [0]);
      var cuts := PutCountFrom(objs, 0, [0], f);
    }
  }

  /** A longer batch holds every prefix of a shorter one. */
  lemma BatchLonger(before: seq<Disk>, after: seq<Disk>, history: Log, all: Log, lo: nat, hi: nat)
    requires lo <= hi <= |all| && BatchSurvives(before, after, history, all[..lo])
    ensures BatchSurvives(before, after, history, all[..hi])
  {
    hide Survives;
    forall i | |before| <= i < |after| ensures PrefixSurvives(after[i], history, all[..hi]) {
      assert PrefixSurvives(after[i], history, all[..lo]);
      var home: map<Pg, nat>, m: nat :| m <= lo && Survives(after[i], home, history + all[..lo][..m]);
      assert all[..lo][..m] == all[..hi][..m];
      PrefixAt(after[i], home, history, all[..hi], m);
    }
  }

  lemma BatchInBatch(before: seq<Disk>, mid: seq<Disk>, after: seq<Disk>, history: Log, all: Log, lo: nat, hi: nat)
    requires lo <= hi <= |all| && BatchSurvives(before, mid, history, all)
    requires BatchSurvives(mid, after, history + all[..lo], all[lo..hi])
    ensures BatchSurvives(before, after, history, all)
  {
    hide Survives;
    assert after[..|before|] == after[..|mid|][..|before|];
    forall i | |before| <= i < |after| ensures PrefixSurvives(after[i], history, all) {
      if i < |mid| {
        assert after[i] == after[..|mid|][i];
      } else {
        var home: map<Pg, nat>, m: nat :| m <= hi - lo && Survives(after[i], home, (history + all[..lo]) + all[lo..hi][..m]);
        assert (history + all[..lo]) + all[lo..hi][..m] == history + all[..lo + m];
        PrefixAt(after[i], home, history, all, lo + m);
      }
    }
  }

  /** Write the objects collected in the temporary buffer. */
  method WriteCollected(c: Lc, batch: Log, ghost all: Log, ghost lo: nat, oldest: Scans,
                        ghost st0: State, ghost t0: seq<Disk>, ghost h0: Log)
    requires lo + |batch| <= |all| && batch == all[lo..lo + |batch|]
    requires Collected(batch)
    requires c.Valid() && c.history == h0 + all[..lo] && c.St() == PutAll(st0, all[..lo], oldest)
    requires BatchSurvives(t0, c.trace, h0, all[..lo])
    modifies c
    ensures c.Valid() && c.history == h0 + all[..lo + |batch|]
    ensures c.St() == PutAll(st0, all[..lo + |batch|], oldest)
    ensures BatchSurvives(t0, c.trace, h0, all[..lo + |batch|])
  {
    hide Inv, PutAll, PrefixSurvives, LogOk, Descends;
    ghost var hi, mid := lo + |batch|, c.trace;
    ghost var most := all[..hi];
    BatchLonger(t0, mid, h0, all, lo, hi);
    PutAllConcat(st0, all[..lo], batch, oldest);
    assert all[..lo] + batch == most && (h0 + all[..lo]) + batch == h0 + most;
    var _ := WriteRecords(c, batch, oldest);
    assert most[..lo] == all[..lo] && most[lo..hi] == batch;
    BatchInBatch(t0, mid, c.trace, h0, most, lo, hi);
  }

  /** Records ready for write_records. */
  ghost predicate Collected(batch: Log) {
    LogOk(batch) && forall j | 0 <= j < |batch| :: batch[j].kind.Write?
  }

  lemma CollectedNone()
    ensures Collected([]) && AcceptableAll([])
  {}

  lemma CollectedSnoc(batch: Log, r: Record)
    requires Collected(batch) && RecordOk(r) && r.kind.Write?
    ensures Collected([]) && Collected([r]) && Collected(batch + [r])
  {
    hide RecordOk;
  }

  lemma AcceptableSnoc(objs: seq<Object>, i: nat)
    requires i < |objs| && AcceptableAll(objs[..i]) && Acceptable(objs[i].key, objs[i].data)
    ensures AcceptableAll(objs[..i + 1])
  {
    hide Acceptable;
    forall j | 0 <= j < i ensures objs[..i + 1][j] == objs[..i][j] {}
  }

  lemma Refused(objs: seq<Object>, i: nat)
    requires i < |objs| && !Acceptable(objs[i].key, objs[i].data)
    ensures !AcceptableAll(objs)
  {}

  lemma BatchNone(trace: seq<Disk>, history: Log, all: Log)
    ensures BatchSurvives(trace, trace, history, all)
  {}

  /** keydecode and lrecbuild for one object of a batch. */
  method BuildRecord(o: Object, trx: nat) returns (acceptable: bool, r: Record)
    ensures acceptable <==> Acceptable(o.key, o.data)
    ensures acceptable ==> RecordOk(r) && r == RecordFor(o, trx)
  {
    var decoded, _, _, counter := KeyDecode(o.key);
    acceptable := decoded.KeyOk? && |o.key| + |o.data| <= BYTES_PER_LOGGING_OBJECT;
    r := Record(Write, o.key, o.data, trx, counter);
  }

  /** lc_mput: objects are checked and collected, and written whenever the temporary buffer
      is full; the first object that is refused ends the call. */
  method Mput(c: Lc, objs: seq<Object>, trx: nat, oldest: Scans) returns (ok: bool, objsWritten: nat)
    requires c.Valid()
    modifies c
    ensures ok <==> AcceptableAll(objs)
    ensures objsWritten == PutCount(objs, 0, 0, 0) && (ok ==> objsWritten == |objs|)
    ensures c.Valid() && c.history == old(c.history) + RecordsFor(objs, trx)[..objsWritten]
    ensures c.St() == PutAll(old(c.St()), RecordsFor(objs, trx)[..objsWritten], oldest)
    ensures BatchSurvives(old(c.trace), c.trace, old(c.history), RecordsFor(objs, trx)[..objsWritten])
  {
    CollectedNone();
    hide Inv, PutAll, BatchSurvives, RecordOk, Acceptable, Collected, AcceptableAll, Descends, PutCount;
    ghost var all, h0 := RecordsFor(objs, trx), c.history;
    BatchNone(c.trace, h0, all[..0]);
    var batch: Log, size: nat := [], 0;
    objsWritten := 0;
    PutNone(c.St(), all, oldest);
    assert h0 + all[..0] == h0;
    for i := 0 to |objs|
      invariant objsWritten + |batch| == i && batch == all[objsWritten..i]
      invariant PutCount(objs, i, objsWritten, size) == PutCount(objs, 0, 0, 0)
      invariant AcceptableAll(objs[..i]) && Collected(batch)
      invariant c.Valid() && c.history == h0 + all[..objsWritten]
      invariant c.St() == PutAll(old(c.St()), all[..objsWritten], oldest)
      invariant BatchSurvives(old(c.trace), c.trace, h0, all[..objsWritten])
    {
      var o := objs[i];
      PutCountIs(objs, i, objsWritten, size);
      var acceptable, r := BuildRecord(o, trx);
      if !acceptable {
        Refused(objs, i);
        return false, objsWritten;
      }
      assert r == all[i];
      if LrecSize(r) + size > TMPBUFSZ {
        WriteCollected(c, batch, all, objsWritten, oldest, old(c.St()), old(c.trace), h0);
        objsWritten := objsWritten + |batch|;
        batch, size := [], 0;
      }
      CollectedSnoc(batch, r);
      AcceptableSnoc(objs, i);
      batch, size := batch + [r], size + LrecSize(r);
    }
    PutCountAll(objs, objsWritten, size);
    if |batch| > 0 {
      WriteCollected(c, batch, all, objsWritten, oldest, old(c.St()), old(c.trace), h0);
      objsWritten := objsWritten + |batch|;
    }
    assert objs[..|objs|] == objs;
    ok := true;
  }

  /** The same objects, one lc_write each: the same final state. */
  method PutEach(c: Lc, objs: seq<Object>, trx: nat, oldest: Scans)
    requires c.Valid() && AcceptableAll(objs)
    modifies c
    ensures c.Valid() && c.history == old(c.history) + RecordsFor(objs, trx)
    ensures c.St() == PutAll(old(c.St()), RecordsFor(objs, trx), oldest)
  {
    hide Inv, PutAll, PutOne, Landed, Written, Descends;
    ghost var all, h0 := RecordsFor(objs, trx), c.history;
    PutNone(c.St(), all, oldest);
    assert h0 + all[..0] == h0;
    for i := 0 to |objs|
      invariant c.Valid() && c.history == h0 + all[..i]
      invariant c.St() == PutAll(old(c.St()), all[..i], oldest)
    {
      assert RecordOk(all[i]) && all[..i + 1] == all[..i] + [all[i]];
      PutOneIs(c.St(), all[i], oldest, c.history);
      PutAllSnoc(old(c.St()), all[..i], all[i], oldest);
      assert (h0 + all[..i]) + [all[i]] == h0 + all[..i + 1];
      var _ := c.LcWrite(objs[i].key, objs[i].data, trx, oldest);
    }
    assert all[..|objs|] == all;
  }
}
