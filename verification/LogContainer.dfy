/** The logging container as api/lc.c runs it: fields updated in place by methods.

    Every device write goes through one of five methods that also record the disk in
    `trace`, so that `trace` lists the disks a crash could leave behind. */
module LogContainer {
  import opened Keys
  import opened LogSpec
  import opened Flash
  import opened Container
  import opened ContainerProofs
  import opened Recovery
  import opened Lineage
  import opened Sweep
  import opened RoundRobin

  datatype Status = Ok | TooLong | Bad | TooBig | Failed

  class Lc {
    const cap: nat
    /** The disk the container was handed; no operation reads it. */
    const start: Disk
    var flash: Objects
    var nv: map<nat, NvBuffer>
    var order: seq<nat>
    var streams: map<nat, Stream>
    var hand: nat
    var pgs: map<Pg, PgState>
    /** Every record ever accepted, in order. */
    ghost var history: Log
    /** Every disk there has been between two device steps; no operation reads it. */
    var trace: seq<Disk>

    function OnDisk(): Disk
      reads this
    {
      Disk(flash, nv)
    }

    ghost function St(): State
      reads this
    {
      State(OnDisk(), cap, order, streams, hand, pgs)
    }

    ghost predicate Valid()
      reads this
    {
      Inv(St(), history) && Descends(start, trace, OnDisk())
    }

    /** A container handed a disk, before it is opened. */
    constructor (disk: Disk, capacity: nat)
      ensures start == OnDisk() == disk && cap == capacity && trace == [] && Descends(start, trace, OnDisk())
      ensures streams == map[] && pgs == map[] && order == [] && hand == 0
    {
      cap, start := capacity, disk;
      flash, nv := disk.flash, disk.nv;
      order, streams, hand, pgs := [], map[], 0, map[];
      history, trace := [], [];
      new;
      DescendsStart(disk);
    }

    // ------------------------------------------------------------- device steps

    method WriteSo(id: SoId, so: Log)
      modifies this`flash, this`trace
      ensures flash == old(flash)[id := so] && trace == old(trace) + [OnDisk()]
    {
      flash := flash[id := so];
      trace := trace + [OnDisk()];
    }

    method DeleteSo(id: SoId)
      modifies this`flash, this`trace
      ensures flash == old(flash) - {id} && trace == old(trace) + [OnDisk()]
    {
      flash := flash - {id};
      trace := trace + [OnDisk()];
    }

    method ResetNv(s: nat)
      modifies this`nv, this`trace
      ensures nv == old(nv)[s := NvEmpty] && trace == old(trace) + [OnDisk()]
    {
      nv := nv[s := NvEmpty];
      trace := trace + [OnDisk()];
    }

    /** nvr_write_buffer_partial: an empty buffer first receives the SO header. */
    method AppendNv(s: nat, seqno: nat, recs: Log)
      modifies this`nv, this`trace
      ensures nv == old(nv)[s := NvLive(
                if s in old(nv) && old(nv)[s].NvLive? then old(nv)[s].seqno else seqno,
                (if s in old(nv) && old(nv)[s].NvLive? then old(nv)[s].recs else []) + recs)]
      ensures trace == old(trace) + [OnDisk()]
    {
      if s in nv && nv[s].NvLive? {
        nv := nv[s := NvLive(nv[s].seqno, nv[s].recs + recs)];
      } else {
        nv := nv[s := NvLive(seqno, [] + recs)];
      }
      trace := trace + [OnDisk()];
    }

    /** Every stream gets an empty NVRAM buffer. */
    method ClearNv()
      modifies this`nv, this`trace
      ensures nv == (map s | s in streams :: NvEmpty) && trace == old(trace) + [OnDisk()]
    {
      nv := map s | s in streams :: NvEmpty;
      trace := trace + [OnDisk()];
    }

    // ------------------------------------------------------- reclamation status

    /** sostatus: scan an SO and record its status in the stream. */
    method SoStatus(s: nat, so: Log)
      requires s in streams && streams[s].agers == [] && streams[s].newestTrx == 0
      requires LogOk(so) && Resting(pgs, so)
      modifies this`streams, this`pgs
      ensures St() == WithStatus(old(St()), s, so)
    {
      hide Marked, AgersOf, MaxTrx;
      var agers, newestTrx, marked := [], 0, pgs;
      MarkNothing(pgs);
      for i := 0 to |so|
        invariant agers == AgersOf(so[..i]) && newestTrx == MaxTrx(so[..i])
        invariant marked == Marked(pgs, so[..i]) && marked.Keys == pgs.Keys
        invariant St() == old(St())
      {
        var r := so[i];
        assert so[..i + 1] == so[..i] + [r] && r in so && RecordOk(r);
        assert !r.kind.Tombstone? ==> RestingPg(pgs, r.key);
        AgersSnoc(so[..i], r);
        MarkedSnoc(pgs, so[..i], r);
        MarkedKeys(pgs, so[..i + 1]);
        if !r.kind.Tombstone? {
          var _, pgBase, pgLen, _ := KeyDecode(r.key);
          var p := r.key[pgBase..pgBase + pgLen];
          var pg := marked[p];
          AgingAgers(pgs, so[..i], p);
          if pg.aging {
            marked := marked[p := pg.(newest := Newest(pg.newest, r.counter), aging := true)];
          } else {
            marked := marked[p := pg.(newest := r.counter, aging := true)];
            agers := [p] + agers;
          }
          newestTrx := if newestTrx < r.trx then r.trx else newestTrx;
        }
      }
      assert so[..|so|] == so;
      streams := streams[s := streams[s].(newestTrx := newestTrx, agers := agers)];
      pgs := marked;
    }

    /** sostatusreclaimable. */
    method SoStatusReclaimable(s: nat, oldestTrx: nat) returns (yes: bool)
      requires s in streams && forall p | p in streams[s].agers :: p in pgs
      ensures yes == Reclaimable(St(), s, oldestTrx)
    {
      var agers := streams[s].agers;
      if !(streams[s].newestTrx < oldestTrx) {
        return false;
      }
      for i := 0 to |agers|
        invariant forall j | 0 <= j < i :: pgs[agers[j]].newest < Newest(0, pgs[agers[j]].trim)
      {
        if !(pgs[agers[i]].newest < Newest(0, pgs[agers[i]].trim)) {
          assert agers[i] in agers;
          return false;
        }
      }
      return true;
    }

    /** sostatusclear. */
    method SoStatusClear(s: nat)
      requires s in streams && forall p | p in streams[s].agers :: p in pgs
      modifies this`streams, this`pgs
      ensures St() == WithoutStatus(old(St()), s)
      ensures streams[s].newestTrx == 0 && streams[s].agers == [] && pgs.Keys == old(pgs.Keys)
      ensures forall p | p in pgs ::
                pgs[p] == if p in old(streams[s].agers) then old(pgs[p]).(aging := false) else old(pgs[p])
    {
      var agers, cleared := streams[s].agers, pgs;
      for i := 0 to |agers|
        invariant cleared == Cleared(pgs, agers[..i]) && cleared.Keys == pgs.Keys
        invariant St() == old(St())
      {
        assert agers[i] in agers;
        assert agers[..i + 1] == agers[..i] + [agers[i]];
        cleared := cleared[agers[i] := cleared[agers[i]].(aging := false)];
        assert cleared == Cleared(pgs, agers[..i + 1]);
      }
      assert agers[..|agers|] == agers;
      streams := streams[s := streams[s].(newestTrx := 0, agers := [])];
      pgs := cleared;
    }

    // --------------------------------------------------------------- streamreclaim

    /** One round of the loop of streamreclaim. */
    method ReclaimOne(s: nat, ghost oldestTrx: nat)
      requires Valid() && s in streams && Reclaimable(St(), s, oldestTrx)
      requires streams[s].seqOldest + 1 < streams[s].seqNext
      modifies this`flash, this`trace, this`streams, this`pgs
      ensures St() == ReclaimedOne(old(St()), s) && trace == old(trace) + [OnDisk()]
      ensures Valid() && HomeOf(pgs) == HomeOf(old(pgs))
    {
      hide Inv, Marked, Cleared, AgersOf, MaxTrx, Reclaimable, Descends, ReclaimedOne;
      ghost var st, t := St(), trace;
      var x := streams[s];
      AgersKnown(st, s, history);
      ReclaimReady(st, s, history);
      var next := flash[SoId(s, x.seqOldest + 1)];
      DeleteSo(SoId(s, x.seqOldest));
      streams := streams[s := x.(seqOldest := x.seqOldest + 1)];
      SoStatusClear(s);
      SoStatus(s, next);
      assert SoAt(st.disk.flash, SoId(s, x.seqOldest + 1)) == next;
      ReclaimedFields(st, s);
      assert streams == ReclaimedOne(st, s).streams;
      ReclaimedOneInv(st, s, oldestTrx, history);
      InvParts(st, history);
      ReclaimedLater(st, s);
      DescendsStep(start, t, st.disk, OnDisk());
    }

    /** streamreclaim: every RATE SOs, delete oldest SOs while they are reclaimable. */
    method StreamReclaim(s: nat, oldest: Scans)
      requires Valid() && s in streams
      modifies this`flash, this`trace, this`streams, this`pgs
      ensures St() == if old(streams[s].seqNext) % RATE == 0 then Reclaimed(old(St()), s, oldest) else old(St())
      ensures if old(streams[s].seqNext) % 10 == 0 then Swept(old(St()), St(), s, oldest) else St() == old(St())
      ensures Valid() && HomeOf(pgs) == HomeOf(old(pgs))
      ensures Surviving(old(trace), trace, HomeOf(old(pgs)), history)
    {
      hide Inv, ReclaimedOne, Reclaimable, Survives, Descends, Swept;
      if streams[s].seqNext % RATE != 0 {
        return;
      }
      ReclaimedSwept(St(), s, oldest, history);
      AgersKnown(St(), s, history);
      var reclaimable := SoStatusReclaimable(s, oldest(Look(s, streams[s].seqNext, streams[s].seqOldest)));
      while reclaimable && streams[s].seqOldest + 1 < streams[s].seqNext
        invariant Valid() && s in streams && reclaimable == ReclaimableNow(St(), s, oldest)
        invariant Reclaimed(St(), s, oldest) == Reclaimed(old(St()), s, oldest)
        invariant HomeOf(pgs) == HomeOf(old(pgs))
        invariant Surviving(old(trace), trace, HomeOf(old(pgs)), history)
        decreases streams[s].seqNext - streams[s].seqOldest
      {
        ReclaimedFields(St(), s);
        ReclaimOne(s, oldest(Look(s, streams[s].seqNext, streams[s].seqOldest)));
        InvSurvives(St(), history);
        AgersKnown(St(), s, history);
        reclaimable := SoStatusReclaimable(s, oldest(Look(s, streams[s].seqNext, streams[s].seqOldest)));
      }
    }

    // ----------------------------------------------------------------- streamwrite

    /** The record goes to the open buffer and to NVRAM. */
    method Append(s: nat, r: Record)
      requires Valid() && s in streams && RecordOk(r) && Fits(St(), s, r)
      requires PgOf(r.key) in pgs && pgs[PgOf(r.key)].stream == s
      modifies this`nv, this`trace, this`streams, this`history
      ensures St() == Appended(old(St()), s, r) && history == old(history) + [r]
      ensures Inv(Bumped(St(), r), history) && Descends(start, trace, OnDisk())
      ensures trace == old(trace) + [OnDisk()] && Survives(OnDisk(), HomeOf(pgs), history)
    {
      hide Inv, Survives, Fits, RecordOk, Bumped, Descends, Later;
      ghost var st, t := St(), trace;
      var x := streams[s];
      NvMirrors(st, s, history);
      AppendDescends(st, s, r, history, start, t);
      AppendNv(s, x.seqNext, [r]);
      streams := streams[s := x.(buf := x.buf + [r], bufNexti := x.bufNexti + LrecSize(r))];
      assert St() == Appended(st, s, r);
      AppendedInv(st, s, r, history);
      history := history + [r];
      BumpedSurvives(St(), r, history);
    }

    /** The device steps of a flush. */
    method FlushDevice(s: nat)
      requires Valid() && s in streams && streams[s].buf != []
      modifies this`flash, this`nv, this`trace
      ensures St() == FlushedNv(FlushedFlash(old(St()), s), s)
      ensures Surviving(old(trace), trace, HomeOf(pgs), history) && Descends(start, trace, OnDisk())
    {
      hide Inv, Survives, All, Descends, Later;
      ghost var st, t := St(), trace;
      InvSurvives(st, history);
      InvParts(st, history);
      FlushKeepsAll(st, s);
      FlushedLater(st, s);
      WriteSo(SoId(s, streams[s].seqNext), streams[s].buf);
      assert St() == FlushedFlash(st, s);
      SurvivesSame(st.disk, OnDisk(), HomeOf(st.pgs), history);
      DescendsStep(start, t, st.disk, OnDisk());
      ghost var d, t' := OnDisk(), trace;
      ResetNv(s);
      SurvivesSame(st.disk, OnDisk(), HomeOf(st.pgs), history);
      DescendsStep(start, t', d, OnDisk());
    }

    /** The first half of streamwrite: a full buffer becomes an SO. */
    method Flush(s: nat)
      requires Valid() && s in streams && streams[s].buf != []
      modifies this`flash, this`nv, this`trace, this`streams, this`pgs
      ensures St() == Flushed(old(St()), s)
      ensures Valid() && HomeOf(pgs) == HomeOf(old(pgs))
      ensures Surviving(old(trace), trace, HomeOf(old(pgs)), history)
    {
      hide Inv, Surviving, Marked, AgersOf, MaxTrx, All, LogOk, Descends;
      ghost var st := St();
      var x := streams[s];
      FlushDevice(s);
      if x.seqOldest == x.seqNext {
        SoleStatus(st, s, history);
        SoStatus(s, x.buf);
      }
      streams := streams[s := streams[s].(buf := [], bufNexti := 0, seqNext := x.seqNext + 1)];
      assert St() == Flushed(st, s);
      FlushedInv(st, s, history);
      FlushedFields(st, s);
      MarkedHome(st.pgs, x.buf);
    }

    /** The middle of streamwrite: what happens when the record does not fit. */
    method MakeRoom(s: nat, ghost r: Record, oldest: Scans)
      requires Valid() && s in streams && RecordOk(r) && !Fits(St(), s, r)
      modifies this`flash, this`nv, this`trace, this`streams, this`pgs
      ensures St() == RoomMade(old(St()), s, oldest) && Fits(St(), s, r)
      ensures var st := Flushed(old(St()), s);
              if old(streams[s].seqNext + 1) % 10 == 0 then Swept(st, St(), s, oldest) else St() == st
      ensures Valid() && HomeOf(pgs) == HomeOf(old(pgs))
      ensures Surviving(old(trace), trace, HomeOf(old(pgs)), history)
    {
      hide Inv, Survives, RecordOk, Flushed, Reclaimed, HomeOf, Fits, Descends, Swept;
      RoomMadeInv(St(), s, r, oldest, history);
      FlushedFields(St(), s);
      Flush(s);
      StreamReclaim(s, oldest);
    }

    /** streamwrite. */
    method StreamWrite(s: nat, r: Record, oldest: Scans)
      requires Valid() && s in streams && RecordOk(r)
      requires PgOf(r.key) in pgs && pgs[PgOf(r.key)].stream == s
      modifies this`flash, this`nv, this`trace, this`streams, this`pgs, this`history
      ensures St() == StreamWritten(old(St()), s, r, oldest) && history == old(history) + [r]
      ensures s in streams
      ensures streams[s].seqNext == old(streams[s].seqNext) + if SizeOf(old(streams[s].buf) + [r]) > cap then 1 else 0
      ensures Inv(Bumped(St(), r), history) && Descends(start, trace, OnDisk()) && HomeOf(pgs) == HomeOf(old(pgs))
      ensures Landed(old(trace), trace, HomeOf(old(pgs)), old(history), history)
    {
      hide Inv, Survives, RoomMade, Bumped, Appended, CounterOf, Descends;
      ghost var p, st := PgOf(r.key), St();
      StreamWrittenNumber(st, s, r, oldest, history);
      assert p in HomeOf(pgs) && HomeOf(pgs)[p] == s;
      if cap < LrecSize(r) + streams[s].bufNexti {
        MakeRoom(s, r, oldest);
        assert p in HomeOf(pgs) && HomeOf(pgs)[p] == s;
      }
      ghost var before := trace;
      assert Surviving(old(trace), before, HomeOf(st.pgs), old(history));
      Append(s, r);
      assert trace[..|trace| - 1] == before;
    }

    // --------------------------------------------------------------- entry points

    /** pglookup. */
    method PgLookup(p: Pg)
      requires Valid()
      modifies this`pgs, this`hand
      ensures St() == WithPg(old(St()), p) && Dealt(old(St()), St(), if p in old(pgs) then [] else [p])
      ensures Valid() && p in pgs && pgs[p].stream in streams
      ensures pgs[p] == if p in old(pgs) then old(pgs)[p] else PgState(old(order[hand]), UNKNOWN, 0, false)
    {
      hide Represents, ShapeOk, StatusOk, PgsOk, OrderOk, Descends, Dealt;
      WithPgInv(St(), p, history);
      WithPgDealt(St(), p);
      if p !in pgs {
        var s := order[hand];
        hand := if hand + 1 < |order| then hand + 1 else 0;
        pgs := pgs[p := PgState(s, UNKNOWN, 0, false)];
      }
    }

    /** The tail of write_record: append to the PG's stream, then move its trim position. */
    method WriteToPg(r: Record, oldest: Scans)
      requires Valid() && RecordOk(r) && PgOf(r.key) in pgs && pgs[PgOf(r.key)].stream in streams
      modifies this`flash, this`nv, this`trace, this`streams, this`pgs, this`history
      ensures St() == Written(old(St()), r, oldest) && history == old(history) + [r]
      ensures Valid() && HomeOf(pgs) == HomeOf(old(pgs))
      ensures Landed(old(trace), trace, HomeOf(old(pgs)), old(history), history)
    {
      hide Inv, StreamWritten, Landed, Descends;
      var p := PgOf(r.key);
      var s := pgs[p].stream;
      ghost var home := HomeOf(pgs);
      assert p in home;
      StreamWrite(s, r, oldest);
      assert p in pgs by { assert p in HomeOf(pgs); }
      if r.kind.Trim? {
        pgs := pgs[p := pgs[p].(trim := Newest(pgs[p].trim, r.counter))];
      }
      assert HomeOf(pgs) == home;
    }

    lemma HandOk()
      requires Valid()
      ensures hand < |order|
    {}

    /** write_record: the slow path of a write, and every delete and trim. */
    method WriteRecord(kind: Kind, k: Key, d: seq<byte>, trx: nat, oldest: Scans) returns (status: Status)
      requires Valid() && kind != Tombstone
      modifies this`flash, this`nv, this`trace, this`streams, this`pgs, this`history, this`hand
      ensures Valid()
      ensures status.Ok? <==> Acceptable(k, d)
      ensures status.Ok? ==>
                var r := Record(kind, k, d, trx, CounterOf(k));
                && history == old(history) + [r]
                && St() == Written(WithPg(old(St()), PgOf(k)), r, oldest)
                && Landed(old(trace), trace, HomeOf(pgs), old(history), history)
      ensures !status.Ok? ==> history == old(history) && OnDisk() == old(OnDisk()) && trace == old(trace)
      ensures status.TooLong? <==> |k| >= BYTES_PER_LOGGING_OBJECT
      ensures status.Bad? <==> |k| < BYTES_PER_LOGGING_OBJECT && !WellFormed(k)
      ensures !status.Ok? ==> St() == if status.Failed? then WithPg(old(St()), PgOf(k)) else old(St())
      ensures Deals(old(St()), St())
    {
      hide Inv, Written, Landed, Descends, Dealt, Deals, WithPg;
      HandOk();
      DealtNone(St(), St());
      ghost var st := St();
      var decoded, pgBase, pgLen, counter := KeyDecode(k);
      if decoded.KeyTooLong? {
        return TooLong;
      } else if decoded.BadKey? {
        return Bad;
      }
      PgLookup(k[pgBase..pgBase + pgLen]);
      WithPgDealt(st, PgOf(k));
      if |k| + |d| > BYTES_PER_LOGGING_OBJECT {
        return Failed;
      }
      WriteToPg(Record(kind, k, d, trx, counter), oldest);
      WrittenDeals(st, Record(kind, k, d, trx, counter), oldest);
      status := Ok;
    }

    /** lc_write: append at once when the PG exists and the record drops into the middle of
        its stream's buffer; otherwise take the slow path. */
    method LcWrite(k: Key, d: seq<byte>, trx: nat, oldest: Scans) returns (status: Status)
      requires Valid()
      modifies this`flash, this`nv, this`trace, this`streams, this`pgs, this`history, this`hand
      ensures Valid()
      ensures status.Ok? <==> Acceptable(k, d)
      ensures status.Ok? ==>
                var r := Record(Write, k, d, trx, CounterOf(k));
                && history == old(history) + [r]
                && St() == Written(WithPg(old(St()), PgOf(k)), r, oldest)
                && Landed(old(trace), trace, HomeOf(pgs), old(history), history)
      ensures !status.Ok? ==> history == old(history) && St() == old(St()) && trace == old(trace)
      ensures status.TooLong? <==> |k| >= BYTES_PER_LOGGING_OBJECT
      ensures status.Bad? <==> |k| < BYTES_PER_LOGGING_OBJECT && !WellFormed(k)
      ensures status.TooBig? <==> |k| < BYTES_PER_LOGGING_OBJECT && WellFormed(k) && |k| + |d| > BYTES_PER_LOGGING_OBJECT
      ensures Deals(old(St()), St())
    {
      hide Inv, Survives, Descends, Dealt, Deals, Written;
      HandOk();
      DealtNone(St(), St());
      ghost var st := St();
      var decoded, pgBase, pgLen, counter := KeyDecode(k);
      if decoded.KeyTooLong? {
        return TooLong;
      } else if decoded.BadKey? {
        return Bad;
      }
      if |k| + |d| > BYTES_PER_LOGGING_OBJECT {
        return TooBig;
      }
      var p := k[pgBase..pgBase + pgLen];
      var done := TryAppend(p, Record(Write, k, d, trx, counter), oldest);
      if done {
        WrittenDeals(st, Record(Write, k, d, trx, counter), oldest);
        return Ok;
      }
      status := WriteRecord(Write, k, d, trx, oldest);
    }

    /** The fast path of lc_write. */
    method TryAppend(p: Pg, r: Record, ghost oldest: Scans) returns (done: bool)
      requires Valid() && RecordOk(r) && r.kind.Write? && PgOf(r.key) == p
      modifies this`nv, this`trace, this`streams, this`history
      ensures Valid()
      ensures done ==>
                && history == old(history) + [r] && p in old(pgs) && old(pgs)[p].stream in old(streams)
                && St() == Written(WithPg(old(St()), p), r, oldest)
                && Landed(old(trace), trace, HomeOf(pgs), old(history), history)
      ensures !done ==> history == old(history) && St() == old(St()) && trace == old(trace)
    {
      hide Inv, Survives, Descends;
      done := false;
      if p in pgs {
        HomeKnown(St(), p, history);
        var s := pgs[p].stream;
        if streams[s].bufNexti != 0 && LrecSize(r) + streams[s].bufNexti <= cap {
          ghost var before := trace;
          Append(s, r);
          assert trace[..|trace| - 1] == before;
          done := true;
        }
      }
    }

    method LcDelete(k: Key, trx: nat, oldest: Scans) returns (status: Status)
      requires Valid()
      modifies this`flash, this`nv, this`trace, this`streams, this`pgs, this`history, this`hand
      ensures Valid()
      ensures status.Ok? <==> Acceptable(k, [])
      ensures status.Ok? ==>
                var r := Record(Delete, k, [], trx, CounterOf(k));
                && history == old(history) + [r]
                && St() == Written(WithPg(old(St()), PgOf(k)), r, oldest)
                && Landed(old(trace), trace, HomeOf(pgs), old(history), history)
      ensures !status.Ok? ==> history == old(history) && St() == old(St()) && trace == old(trace)
      ensures status.TooLong? <==> |k| >= BYTES_PER_LOGGING_OBJECT
      ensures status.Bad? <==> |k| < BYTES_PER_LOGGING_OBJECT && !WellFormed(k)
      ensures Deals(old(St()), St())
    {
      hide Inv, Written, WithPg, Landed, Descends, Deals;
      status := WriteRecord(Delete, k, [], trx, oldest);
    }

    method LcTrim(k: Key, trx: nat, oldest: Scans) returns (status: Status)
      requires Valid()
      modifies this`flash, this`nv, this`trace, this`streams, this`pgs, this`history, this`hand
      ensures Valid()
      ensures status.Ok? <==> Acceptable(k, [])
      ensures status.Ok? ==>
                var r := Record(Trim, k, [], trx, CounterOf(k));
                && history == old(history) + [r]
                && St() == Written(WithPg(old(St()), PgOf(k)), r, oldest)
                && Landed(old(trace), trace, HomeOf(pgs), old(history), history)
      ensures !status.Ok? ==> history == old(history) && St() == old(St()) && trace == old(trace)
      ensures status.TooLong? <==> |k| >= BYTES_PER_LOGGING_OBJECT
      ensures status.Bad? <==> |k| < BYTES_PER_LOGGING_OBJECT && !WellFormed(k)
      ensures Deals(old(St()), St())
    {
      hide Inv, Written, WithPg, Landed, Descends, Deals;
      status := WriteRecord(Trim, k, [], trx, oldest);
    }

    // ----------------------------------------------------------------- pgstreamscan

    /** The inner loop of pgstreamscan over one SO: `found` moves from the reading of
        `prefix` to that of `prefix + so`. */
    method ScanSo(prefix: Log, so: Log, k: Key, trim: nat, found0: Option<seq<byte>>)
      returns (found: Option<seq<byte>>)
      requires WellFormed(k) && LogOk(so) && found0 == Seen(prefix, k, trim)
      ensures found == Seen(prefix + so, k, trim)
    {
      found := found0;
      assert prefix + so[..0] == prefix;
      for i := 0 to |so|
        invariant found == Seen(prefix + so[..i], k, trim)
      {
        var r := so[i];
        assert prefix + so[..i + 1] == (prefix + so[..i]) + [r] && RecordOk(r);
        SeenSnoc(prefix + so[..i], r, k, trim);
        match r.kind {
          case Write =>
            var equal := KeyEqual(r.key, k);
            if equal {
              var _, _, _, c := KeyDecode(r.key);
              if !Trimmed(trim, c) {
                found := Some(r.data);
              }
            }
          case Delete =>
            var equal := KeyEqual(r.key, k);
            if equal {
              found := None;
            }
          case _ =>
        }
      }
      assert so[..|so|] == so;
    }

    /** pgstreamscan: read every SO of the PG's stream, then the open buffer. */
    method PgStreamScan(p: Pg, k: Key) returns (found: Option<seq<byte>>)
      requires Valid() && p in pgs && pgs[p].stream in streams && WellFormed(k) && PgOf(k) == p
      ensures found == Lookup(Replay(LogOf(All(OnDisk()), pgs[p].stream)), k)
    {
      hide Inv, All, Replay, Seen, Lookup;
      var s := pgs[p].stream;
      var x, trim := streams[s], pgs[p].trim;
      ScanStart(St(), s, history);
      SeenNothing(k, trim);
      found := None;
      for n := x.seqOldest to x.seqNext
        invariant found == Seen(UpTo(flash, s, n), k, trim)
      {
        SoOk(St(), s, n, history);
        found := ScanSo(UpTo(flash, s, n), flash[SoId(s, n)], k, trim, found);
      }
      found := ScanSo(UpTo(flash, s, x.seqNext), x.buf, k, trim, found);
      SeenIsLookup(St(), p, k, history);
    }

    /** lc_read. */
    method LcRead(k: Key) returns (status: Status, found: Option<seq<byte>>)
      requires Valid()
      modifies this`pgs, this`hand
      ensures Valid() && history == old(history) && OnDisk() == old(OnDisk())
      ensures status.Ok? <==> |k| < BYTES_PER_LOGGING_OBJECT && WellFormed(k)
      ensures status.Ok? && CounterOf(k) != UNKNOWN ==> found == Lookup(Replay(history), k)
      ensures status.Ok? ==>
                PgOf(k) in pgs && found == Lookup(Replay(LogOf(All(OnDisk()), pgs[PgOf(k)].stream)), k)
      ensures !status.Ok? ==> found == None && St() == old(St())
      ensures status.TooLong? <==> |k| >= BYTES_PER_LOGGING_OBJECT
      ensures status.Bad? <==> |k| < BYTES_PER_LOGGING_OBJECT && !WellFormed(k)
      ensures Deals(old(St()), St())
    {
      hide Inv, All, Replay, Lookup, LogOf, Descends, Dealt, WithPg;
      HandOk();
      DealtNone(St(), St());
      found := None;
      var decoded, pgBase, pgLen, _ := KeyDecode(k);
      if decoded.KeyTooLong? {
        return TooLong, None;
      } else if decoded.BadKey? {
        return Bad, None;
      }
      var p := k[pgBase..pgBase + pgLen];
      PgLookup(p);
      found := PgStreamScan(p, k);
      InvParts(St(), history);
      if CounterOf(k) != UNKNOWN { ReadHome(All(OnDisk()), HomeOf(pgs), history, k); }
      status := Ok;
    }

    // -------------------------------------------------------------------- recovery

    /** nvflush: every live NVRAM buffer becomes an SO and is reset. */
    method NvFlush(ghost reverted: set<nat>)
      modifies this`flash, this`nv, this`trace
      ensures flash == All(old(OnDisk())) && nv.Keys == old(nv.Keys)
      ensures forall s | s in nv :: nv[s].NvEmpty?
      ensures Steps(old(OnDisk()), old(trace), trace, reverted)
      ensures OnDisk() == LastDisk(old(OnDisk()), |old(trace)|, trace)
    {
      hide All, Steps;
      ghost var d0, t0 := OnDisk(), trace;
      StepsNone(d0, t0, reverted);
      var pending := set s | s in nv && nv[s].NvLive?;
      while pending != {}
        invariant pending == (set s | s in nv && nv[s].NvLive?)
        invariant nv.Keys == old(nv.Keys) && All(OnDisk()) == All(d0)
        invariant Steps(d0, t0, trace, reverted) && OnDisk() == LastDisk(d0, |t0|, trace)
        decreases pending
      {
        var s :| s in pending;
        FlushNv(s, d0, t0, reverted);
        pending := pending - {s};
      }
      assert forall s | s in nv && nv[s].NvLive? :: s in pending;
      AllEmpty(OnDisk());
    }

    /** One buffer of nvflush: write its SO, then reset it. */
    method FlushNv(s: nat, ghost d0: Disk, ghost t0: seq<Disk>, ghost reverted: set<nat>)
      requires s in nv && nv[s].NvLive?
      requires Steps(d0, t0, trace, reverted) && OnDisk() == LastDisk(d0, |t0|, trace)
      modifies this`flash, this`nv, this`trace
      ensures nv == old(nv)[s := NvEmpty] && All(OnDisk()) == All(old(OnDisk()))
      ensures Steps(d0, t0, trace, reverted) && OnDisk() == LastDisk(d0, |t0|, trace)
    {
      hide All, Steps, LastDisk;
      ghost var d := OnDisk();
      WriteSo(SoId(s, nv[s].seqno), nv[s].recs);
      ghost var d1 := OnDisk();
      assert NvFlushStep(d, d1, s);
      NvStepKeepsAll(d, d1, s);
      StepsExtend(d0, t0, old(trace), reverted, d1);
      ghost var t1 := trace;
      ResetNv(s);
      assert NvResetStep(d1, OnDisk(), s);
      NvStepKeepsAll(d1, OnDisk(), s);
      StepsExtend(d0, t0, t1, reverted, OnDisk());
    }

    /** The part of soscan for a record that is not reverted. */
    method ScanRecord(s: nat, r: Record)
      requires RecordOk(r) && !r.kind.Tombstone?
      modifies this`pgs
      ensures pgs == ScanStep(old(pgs), s, r)
    {
      var _, pgBase, pgLen, counter := KeyDecode(r.key);
      var p := r.key[pgBase..pgBase + pgLen];
      if p !in pgs {
        pgs := pgs[p := PgState(s, UNKNOWN, 0, false)];
      }
      if r.kind.Trim? {
        pgs := pgs[p := pgs[p].(trim := Newest(pgs[p].trim, counter))];
      }
    }

    /** soscan: tombstone reverted records, and note the PGs and TRIMs of the others. */
    method SoScan(s: nat, so: Log, reverted: set<nat>) returns (so': Log, changed: bool)
      requires LogOk(so)
      modifies this`pgs
      ensures so' == TombLog(so, reverted) && (!changed ==> so' == so)
      ensures pgs == Scanned(old(pgs), s, so')
    {
      hide TombLog, Scanned;
      so', changed := [], false;
      ScanNothing(old(pgs), s, reverted);
      for i := 0 to |so|
        invariant so' == TombLog(so[..i], reverted) && (!changed ==> so' == so[..i])
        invariant pgs == Scanned(old(pgs), s, so')
      {
        var r := so[i];
        assert so[..i + 1] == so[..i] + [r] && RecordOk(r);
        TombLogSnoc(so[..i], r, reverted);
        ScannedSnoc(old(pgs), s, so', Tomb(r, reverted));
        if !r.kind.Tombstone? {
          if r.trx in reverted {
            r := r.(kind := Tombstone);
            changed := true;
          } else {
            ScanRecord(s, r);
          }
        }
        so' := so' + [r];
      }
      assert so[..|so|] == so;
    }

    /** recover's bookkeeping for the stream of one SO. */
    method NoteSo(id: SoId)
      requires OrderOk(order, streams.Keys)
      modifies this`order, this`streams
      ensures streams == StreamsWith(old(streams), id) && OrderOk(order, streams.Keys)
    {
      if id.stream !in streams {
        order := [id.stream] + order;
        streams := streams[id.stream := Stream(id.seqno, 0, [], 0, 0, [])];
      }
      var x := streams[id.stream];
      streams := streams[id.stream := x.(seqNext := if x.seqNext < id.seqno + 1 then id.seqno + 1 else x.seqNext,
                                         seqOldest := if id.seqno < x.seqOldest then id.seqno else x.seqOldest)];
    }

    /** recover's work on one SO, written back if records in it are newly reverted. */
    method RecoverOne(id: SoId, reverted: set<nat>, ghost d0: Disk, ghost t0: seq<Disk>)
      requires id in flash && LogOk(flash[id]) && OrderOk(order, streams.Keys)
      requires forall s | s in nv :: nv[s].NvEmpty?
      requires Steps(d0, t0, trace, reverted) && OnDisk() == LastDisk(d0, |t0|, trace)
      modifies this`flash, this`trace, this`order, this`streams, this`pgs
      ensures flash == old(flash)[id := TombLog(old(flash)[id], reverted)]
      ensures streams == StreamsWith(old(streams), id) && OrderOk(order, streams.Keys)
      ensures pgs == Scanned(old(pgs), id.stream, TombLog(old(flash)[id], reverted))
      ensures Steps(d0, t0, trace, reverted) && OnDisk() == LastDisk(d0, |t0|, trace)
    {
      hide Steps, LastDisk, OrderOk, TombLog, Scanned, StreamsWith, LogOk;
      NoteSo(id);
      var so', changed := SoScan(id.stream, flash[id], reverted);
      if changed {
        ghost var d, t := OnDisk(), trace;
        WriteSo(id, so');
        assert RewriteStep(d, OnDisk(), id, reverted);
        StepsExtend(d0, t0, t, reverted, OnDisk());
      } else {
        assert flash[id := so'] == flash;
      }
    }

    /** recover: scan the SOs in the order the enumeration yields them, which is arbitrary. */
    method Recover(reverted: set<nat>, ghost home: map<Pg, nat>)
      requires streams == map[] && order == [] && pgs == map[]
      requires forall s | s in nv :: nv[s].NvEmpty?
      requires ObjectsOk(flash) && OneHome(flash, home)
      modifies this`flash, this`trace, this`order, this`streams, this`pgs
      ensures flash == TombAll(old(flash), reverted)
      ensures OrderOk(order, streams.Keys) && StreamsScanned(streams, flash.Keys)
      ensures PgsScanned(pgs, flash, home, flash.Keys)
      ensures Steps(old(OnDisk()), old(trace), trace, reverted)
      ensures OnDisk() == LastDisk(old(OnDisk()), |old(trace)|, trace)
    {
      hide Steps, LastDisk, TombAll, TombLog, PgsScanned, StreamsScanned, OneHome, OrderOk, Scanned, StreamsWith, HalfDone, LogOk;
      ghost var d0, t0, f0 := OnDisk(), trace, flash;
      ghost var goal := TombAll(f0, reverted);
      RecoverStart(f0, home, reverted, d0, t0);
      ghost var done: set<SoId> := {};
      var pending := flash.Keys;
      assert streams.Keys == {};
      while pending != {}
        invariant pending + done == f0.Keys && pending !! done
        invariant HalfDone(flash, f0, done, reverted)
        invariant OrderOk(order, streams.Keys) && StreamsScanned(streams, done)
        invariant PgsScanned(pgs, goal, home, done)
        invariant Steps(d0, t0, trace, reverted) && OnDisk() == LastDisk(d0, |t0|, trace)
        decreases pending
      {
        var id :| id in pending;
        HalfDoneAt(flash, f0, done, reverted, id);
        StreamsScannedStep(streams, done, id);
        PgsScannedStep(pgs, goal, home, done, id);
        HalfDoneStep(flash, f0, done, reverted, id);
        RecoverOne(id, reverted, d0, t0);
        pending := pending - {id};
        done := done + {id};
      }
      assert done == f0.Keys;
      AllDone(flash, f0, reverted);
    }

    /** lc_open adds streams up to the configured number. */
    method AddStreams(target: nat)
      requires target > 0 && StreamsFound(streams, flash) && OrderOk(order, streams.Keys)
      modifies this`order, this`streams
      ensures StreamsFound(streams, flash) && OrderOk(order, streams.Keys)
      ensures |order| == Larger(|old(order)|, target) && order[|order| - |old(order)|..] == old(order)
      ensures exists top, last :: Grown(old(streams), streams, top, last)
    {
      hide StreamsFound, OrderOk, Grown;
      var last := LastStream();
      ghost var top, old' := last, streams;
      GrownNone(streams, last);
      while |order| < target
        invariant StreamsFound(streams, flash) && OrderOk(order, streams.Keys) && Grown(old', streams, top, last)
        invariant |old(order)| <= |order| <= Larger(|old(order)|, target)
        invariant order[|order| - |old(order)|..] == old(order)
      {
        last := last + 1;
        GrownMore(old', streams, top, last);
        FoundNewStream(streams, flash, last);
        OrderCons(order, streams.Keys, last);
        ghost var ids := streams.Keys;
        order := [last] + order;
        streams := streams[last := Stream(0, 0, [], 0, 0, [])];
        assert streams.Keys == ids + {last};
      }
    }

    /** The largest stream number in use. */
    method LastStream() returns (last: nat)
      requires OrderOk(order, streams.Keys)
      ensures forall s | s in streams :: s <= last
    {
      last := 0;
      for i := 0 to |order|
        invariant forall j | 0 <= j < i :: order[j] <= last
      {
        if last < order[i] {
          last := order[i];
        }
      }
    }

    /** sostatusrecover: take the status of every stream that has SOs. */
    method SoStatusRecover()
      requires Opening(St()) && forall s | s in streams :: StatusBlank(St(), s)
      modifies this`streams, this`pgs
      ensures Opening(St()) && forall s | s in streams :: StatusOk(St(), s)
      ensures HomeOf(pgs) == HomeOf(old(pgs)) && SameNumbers(old(streams), streams)
    {
      hide Opening, StatusBlank, StatusOk, OrderOk;
      assert OrderOk(order, streams.Keys) by { OpeningOrder(St()); }
      OrderApart(order, streams.Keys, 0);
      for i := 0 to |order|
        invariant Opening(St()) && OrderOk(order, streams.Keys)
        invariant forall j | 0 <= j < i :: order[j] in streams && StatusOk(St(), order[j])
        invariant forall j | i <= j < |order| :: order[j] in streams && StatusBlank(St(), order[j])
        invariant HomeOf(pgs) == HomeOf(old(pgs)) && SameNumbers(old(streams), streams)
      {
        OrderApart(order, streams.Keys, i);
        TakeStatus(order[i]);
      }
      OrderApart(order, streams.Keys, |order|);
    }

    method TakeStatus(s: nat)
      requires Opening(St()) && s in streams && StatusBlank(St(), s)
      modifies this`streams, this`pgs
      ensures Opening(St()) && streams.Keys == old(streams.Keys) && StatusOk(St(), s)
      ensures forall t | t in streams && t != s && old(StatusOk(St(), t)) :: StatusOk(St(), t)
      ensures forall t | t in streams && t != s && old(StatusBlank(St(), t)) :: StatusBlank(St(), t)
      ensures HomeOf(pgs) == HomeOf(old(pgs)) && SameNumbers(old(streams), streams)
    {
      hide Opening, StatusOk, StatusBlank, Marked, AgersOf, MaxTrx;
      ghost var st := St();
      if streams[s].seqOldest == streams[s].seqNext {
        BlankIsStatus(st, s);
      } else {
        OpeningReady(st, s);
        var so := flash[SoId(s, streams[s].seqOldest)];
        SoStatus(s, so);
        OpeningKept(st, s);
        MarkedHome(st.pgs, so);
        forall t | t in streams && t != s
          ensures StatusOk(st, t) ==> StatusOk(St(), t)
          ensures StatusBlank(st, t) ==> StatusBlank(St(), t)
        {
          StatusTaken(st, s, t);
        }
        StatusTaken(st, s, s);
      }
    }

    /** The device half of lc_open, up to the number of streams. */
    method Rebuild(reverted: set<nat>, target: nat, ghost home: map<Pg, nat>)
      requires streams == map[] && order == [] && pgs == map[]
      requires cap >= MAX_LREC && target > 0 && Recoverable(OnDisk(), home) && Descends(start, trace, OnDisk())
      modifies this`flash, this`nv, this`trace, this`order, this`streams, this`pgs, this`hand
      ensures flash == TombAll(All(old(OnDisk())), reverted)
      ensures Rebuilt(St(), home) && hand == 0 && |order| == Larger(|StreamsOn(All(old(OnDisk())))|, target)
      ensures NewFromZero(streams, StreamsOn(All(old(OnDisk()))))
      ensures Steps(old(OnDisk()), old(trace), trace, reverted) && Descends(start, trace, OnDisk())
    {
      hide All, Steps, TombAll, PgsScanned, StreamsScanned, OneHome, OrderOk, StreamsFound, Contiguous, ObjectsOk, Descends,
           Later, LastDisk, StreamsOn, Grown, NewFromZero;
      ghost var d0, t0 := OnDisk(), trace;
      NvFlush(reverted);
      ghost var d1, t1 := OnDisk(), trace;
      Recover(reverted, home);
      StepsJoin(d0, t0, d1, t1, trace, reverted);
      RebuiltFlash(d1.flash, home, reverted);
      ScannedFound(streams, flash);
      ScannedStreams(streams, flash, order);
      assert StreamsOn(flash) == StreamsOn(All(d0)) by { SameStreams(flash, All(d0)); }
      ghost var found := streams;
      AddStreams(target);
      GrownFromZero(found, streams);
      ghost var d2, t2 := OnDisk(), trace;
      ClearNv();
      StepsExtend(d0, t0, t2, reverted, OnDisk());
      DescendsSteps(start, d0, t0, trace, reverted);
      hand := 0;
    }

    /** lc_open: flush NVRAM, rebuild from the SOs, take the reclamation status. */
    method Open(reverted: set<nat>, target: nat, ghost home: map<Pg, nat>, ghost history': Log)
      requires streams == map[] && order == [] && pgs == map[]
      requires cap >= MAX_LREC && target > 0 && Recoverable(OnDisk(), home) && Descends(start, trace, OnDisk())
      modifies this`flash, this`nv, this`trace, this`order, this`streams, this`pgs, this`hand, this`history
      ensures flash == TombAll(All(old(OnDisk())), reverted) && forall s | s in nv :: nv[s].NvEmpty?
      ensures hand == 0 && |order| == Larger(|StreamsOn(All(old(OnDisk())))|, target)
      ensures NewFromZero(streams, StreamsOn(All(old(OnDisk()))))
      ensures Opening(St()) && forall s | s in streams :: StatusOk(St(), s)
      ensures Steps(old(OnDisk()), old(trace), trace, reverted) && Descends(start, trace, OnDisk())
      ensures Represents(TombAll(All(old(OnDisk())), reverted), home, history') ==> Valid() && history == history'
    {
      hide All, Steps, TombAll, Rebuilt, Represents, Opening, StatusOk, Descends, StreamsOn;
      Rebuild(reverted, target, home);
      ghost var st := St();
      RebuiltOpening(st, home);
      forall s | s in streams ensures StatusBlank(st, s) { RebuiltBlank(st, home, s); }
      if Represents(flash, home, history') { RebuiltRepresents(st, home, history'); }
      assert forall s | s in nv :: nv[s].NvEmpty? by { RebuiltEmpty(st, home); }
      SoStatusRecover();
      history := history';
      OpeningValid(St());
    }
  }

  /** The old streams, numbered up to `top`, and empty new ones after them, up to `last`. */
  ghost predicate Grown(streams: map<nat, Stream>, streams': map<nat, Stream>, top: nat, last: nat) {
    && (forall s | s in streams :: s <= top && s in streams' && streams'[s] == streams[s])
    && (forall s | s in streams' && s !in streams :: top < s && streams'[s] == Stream(0, 0, [], 0, 0, []))
    && top <= last && forall s | s in streams' :: s <= last
  }

  lemma GrownNone(streams: map<nat, Stream>, top: nat)
    requires forall s | s in streams :: s <= top
    ensures Grown(streams, streams, top, top)
  {}

  lemma GrownMore(streams: map<nat, Stream>, streams': map<nat, Stream>, top: nat, last: nat)
    requires 0 < last && Grown(streams, streams', top, last - 1)
    ensures last !in streams' && Grown(streams, streams'[last := Stream(0, 0, [], 0, 0, [])], top, last)
  {}

  lemma GrownFromZero(streams: map<nat, Stream>, streams': map<nat, Stream>)
    requires exists top, last :: Grown(streams, streams', top, last)
    ensures NewFromZero(streams', streams.Keys)
  {}

  /** The same streams with the same SOs. */
  ghost predicate SameNumbers(streams: map<nat, Stream>, streams': map<nat, Stream>) {
    streams'.Keys == streams.Keys &&
    forall s | s in streams :: streams'[s].seqOldest == streams[s].seqOldest && streams'[s].seqNext == streams[s].seqNext
  }

  /** Streams without SOs number theirs from 0 on. */
  ghost predicate NewFromZero(streams: map<nat, Stream>, known: set<nat>) {
    forall s | s in streams && s !in known :: streams[s].seqOldest == streams[s].seqNext == 0
  }

  ghost predicate RestingPg(pgs: map<Pg, PgState>, k: Key) {
    WellFormed(k) && PgOf(k) in pgs && !pgs[PgOf(k)].aging
  }

  /** The PGs of an SO are known and not aging. */
  ghost predicate Resting(pgs: map<Pg, PgState>, so: Log) {
    forall r | r in so && !r.kind.Tombstone? :: RestingPg(pgs, r.key)
  }

  lemma MarkNothing(pgs: map<Pg, PgState>)
    ensures Marked(pgs, []) == pgs && AgersOf([]) == [] && MaxTrx([]) == 0
  {}

  lemma MarkedKeys(pgs: map<Pg, PgState>, so: Log)
    ensures Marked(pgs, so).Keys == pgs.Keys
  {}

  lemma AgingAgers(pgs: map<Pg, PgState>, so: Log, p: Pg)
    requires LogOk(so) && p in pgs && !pgs[p].aging
    ensures Marked(pgs, so)[p].aging <==> p in AgersOf(so)
  {
    InAgersOf(so, p);
  }

  // ------------------------------------------------------------- crash points

  /** Every disk a crash could have left since `before` stands for the history. */
  ghost predicate Surviving(before: seq<Disk>, after: seq<Disk>, home: map<Pg, nat>, history: Log) {
    |before| <= |after| && after[..|before|] == before &&
    forall i | |before| <= i < |after| :: Survives(after[i], home, history)
  }

  /** A write lands at its last device step: before it a crash finds the old history,
      after it the new one. */
  ghost predicate Landed(before: seq<Disk>, after: seq<Disk>, home: map<Pg, nat>, history: Log, history': Log) {
    |before| < |after| && Surviving(before, after[..|after| - 1], home, history) &&
    Survives(after[|after| - 1], home, history')
  }

  lemma SurvivesSame(d: Disk, d': Disk, home: map<Pg, nat>, history: Log)
    requires Survives(d, home, history) && All(d) == All(d')
    ensures Survives(d', home, history)
  {}

  lemma AppendDescends(st: State, s: nat, r: Record, history: Log, start: Disk, trace: seq<Disk>)
    requires Inv(st, history) && s in st.streams && Descends(start, trace, st.disk)
    ensures var d := Appended(st, s, r).disk; Descends(start, trace + [d], d)
  {
    hide Inv, Descends, Later;
    InvParts(st, history);
    AppendedLater(st, s, st.streams[s].buf + [r]);
    DescendsStep(start, trace, st.disk, Appended(st, s, r).disk);
  }

  lemma BumpedSurvives(st: State, r: Record, history: Log)
    requires Inv(Bumped(st, r), history)
    ensures Survives(st.disk, HomeOf(st.pgs), history)
  {
    hide Inv, Survives;
    InvSurvives(Bumped(st, r), history);
    assert HomeOf(Bumped(st, r).pgs) == HomeOf(st.pgs);
  }

  // ------------------------------------------------- what the invariant provides

  lemma AgersKnown(st: State, s: nat, history: Log)
    requires Inv(st, history) && s in st.streams
    ensures forall p | p in st.streams[s].agers :: p in st.pgs
  {
    hide All, AgersOf, MaxTrx, OneHome, OfPg, StreamsOk, PgsOk, SizeOf;
    var x := st.streams[s];
    var so := OldestSo(st.disk, s, x);
    assert StatusOk(st, s);
    InvParts(st, history);
    AllAt(st, s, x.seqOldest);
    forall p | p in x.agers ensures p in st.pgs {
      NoneOfPg(p);
      InAgersOf(so, p);
      SoHome(All(st.disk), HomeOf(st.pgs), SoId(s, x.seqOldest), p);
    }
  }

  /** Once the status is cleared no PG of the stream is aging. */
  lemma ClearedRests(st: State, s: nat, history: Log, p: Pg)
    requires Inv(st, history) && s in st.streams && p in st.pgs && st.pgs[p].stream == s
    ensures p in Cleared(st.pgs, st.streams[s].agers) && !Cleared(st.pgs, st.streams[s].agers)[p].aging
  {
    hide AgersOf, MaxTrx, OfPg, All, OneHome, SizeOf, PgsOk, StreamsOk;
    var x := st.streams[s];
    var so := OldestSo(st.disk, s, x);
    assert StatusOk(st, s);
    InvParts(st, history);
    AllAt(st, s, x.seqOldest);
    assert LogOk(so);
    InAgersOf(so, p);
    assert PgStatusOk(st.pgs[p], OfPg(so, p));
  }

  lemma ReclaimReady(st: State, s: nat, history: Log)
    requires Inv(st, history) && s in st.streams
    requires st.streams[s].seqOldest + 1 < st.streams[s].seqNext
    ensures var x := st.streams[s];
            && SoId(s, x.seqOldest + 1) in st.disk.flash
            && LogOk(st.disk.flash[SoId(s, x.seqOldest + 1)])
            && Resting(Cleared(st.pgs, x.agers), st.disk.flash[SoId(s, x.seqOldest + 1)])
  {
    hide Inv, Cleared, All, LogOk;
    var x := st.streams[s];
    NextSo(st, s, history);
    forall r | r in st.disk.flash[SoId(s, x.seqOldest + 1)] && !r.kind.Tombstone?
      ensures RestingPg(Cleared(st.pgs, x.agers), r.key)
    {
      SoPgs(st, s, x.seqOldest + 1, history, r);
      ClearedRests(st, s, history, PgOf(r.key));
    }
  }

  lemma NextSo(st: State, s: nat, history: Log)
    requires Inv(st, history) && s in st.streams
    requires st.streams[s].seqOldest + 1 < st.streams[s].seqNext
    ensures var id := SoId(s, st.streams[s].seqOldest + 1);
            && id in st.disk.flash && LogOk(st.disk.flash[id]) && SoAt(All(st.disk), id) == st.disk.flash[id]
  {
    hide All, OneHome, SizeOf, PgsOk, StreamsOk, StatusOk, LogOk, OfPg;
    var x := st.streams[s];
    assert StreamOk(st.disk, st.cap, s, x);
    AllAt(st, s, x.seqOldest + 1);
  }

  lemma NvMirrors(st: State, s: nat, history: Log)
    requires Inv(st, history) && s in st.streams
    ensures s in st.disk.nv
    ensures st.disk.nv[s] == if st.streams[s].buf == [] then NvEmpty else NvLive(st.streams[s].seqNext, st.streams[s].buf)
  {
    assert StreamOk(st.disk, st.cap, s, st.streams[s]);
  }

  /** A buffer about to become the sole SO of its stream may have its status taken. */
  lemma SoleStatus(st: State, s: nat, history: Log)
    requires Inv(st, history) && s in st.streams && st.streams[s].seqOldest == st.streams[s].seqNext
    ensures var x := st.streams[s];
            && LogOk(x.buf) && x.agers == [] && x.newestTrx == 0 && Resting(st.pgs, x.buf)
  {
    hide All, OfPg, OneHome, SizeOf, PgsOk;
    var x := st.streams[s];
    assert StatusOk(st, s);
    AllAt(st, s, x.seqNext);
    forall r | r in x.buf && !r.kind.Tombstone? ensures RestingPg(st.pgs, r.key) {
      SoPgs(st, s, x.seqNext, history, r);
      NoneOfPg(PgOf(r.key));
      assert PgStatusOk(st.pgs[PgOf(r.key)], OfPg([], PgOf(r.key)));
    }
  }

  // ---------------------------------------------------------------- client writes

  /** A key and data that a write accepts. */
  predicate Acceptable(k: Key, d: seq<byte>) {
    |k| < BYTES_PER_LOGGING_OBJECT && WellFormed(k) && |k| + |d| <= BYTES_PER_LOGGING_OBJECT
  }

  /** A record written to its PG's stream. */
  ghost function Written(st: State, r: Record, oldest: Scans): State
    requires WellFormed(r.key) && PgOf(r.key) in st.pgs && st.pgs[PgOf(r.key)].stream in st.streams
  {
    Bumped(StreamWritten(st, st.pgs[PgOf(r.key)].stream, r, oldest), r)
  }

  lemma {:induction false} ReclaimedNumber(st: State, s: nat, oldest: Scans)
    requires s in st.streams
    ensures s in Reclaimed(st, s, oldest).streams && Reclaimed(st, s, oldest).streams[s].seqNext == st.streams[s].seqNext
    decreases st.streams[s].seqNext - st.streams[s].seqOldest
  {
    if ReclaimableNow(st, s, oldest) && st.streams[s].seqOldest + 1 < st.streams[s].seqNext {
      ReclaimedFields(st, s);
      hide ReclaimedOne, Reclaimable, MaxTrx, AgersOf, Marked, Cleared;
      ReclaimedNumber(ReclaimedOne(st, s), s, oldest);
    }
  }

  /** A write opens a new SO exactly when the record would not fit into the buffer. */
  lemma StreamWrittenNumber(st: State, s: nat, r: Record, oldest: Scans, history: Log)
    requires Inv(st, history) && s in st.streams
    ensures var st' := StreamWritten(st, s, r, oldest);
            && s in st'.streams
            && st'.streams[s].seqNext == st.streams[s].seqNext + if SizeOf(st.streams[s].buf + [r]) > st.cap then 1 else 0
  {
    assert StreamOk(st.disk, st.cap, s, st.streams[s]);
    SizeOfSnoc(st.streams[s].buf, r);
    hide Inv, Reclaimed, Flushed, SizeOf;
    if !Fits(st, s, r) {
      FlushedFields(st, s);
      ReclaimedNumber(Flushed(st, s), s, oldest);
    }
  }

  /** A write of a record deals its PG to a stream, if it is new, and moves nothing else. */
  lemma WrittenDeals(st: State, r: Record, oldest: Scans)
    requires st.hand < |st.order| && WellFormed(r.key) && PgOf(r.key) in WithPg(st, PgOf(r.key)).pgs
    requires WithPg(st, PgOf(r.key)).pgs[PgOf(r.key)].stream in WithPg(st, PgOf(r.key)).streams
    ensures Deals(st, Written(WithPg(st, PgOf(r.key)), r, oldest))
  {
    hide Dealt, Deals, StreamWritten, Bumped, HomeOf;
    var st1 := WithPg(st, PgOf(r.key));
    WithPgDealt(st, PgOf(r.key));
    StreamWrittenUnmoved(st1, st1.pgs[PgOf(r.key)].stream, r, oldest);
    DealtNone(st1, Written(st1, r, oldest));
    DealsThen(st, st1, Written(st1, r, oldest));
  }

  lemma HomeKnown(st: State, p: Pg, history: Log)
    requires Inv(st, history) && p in st.pgs
    ensures st.pgs[p].stream in st.streams
    ensures WithPg(st, p) == st
  {
    hide Represents, ShapeOk, StatusOk, OrderOk, TrimOf;
  }

  // ---------------------------------------------------------------- reading

  /** What a scan has found after the records of `log`. */
  ghost function Seen(log: Log, k: Key, trim: nat): Option<seq<byte>>
  {
    if Canon(k) in Replay(log).kv && !Trimmed(trim, CounterOf(k)) then Some(Replay(log).kv[Canon(k)]) else None
  }

  lemma SeenNothing(k: Key, trim: nat)
    ensures Seen([], k, trim) == None
  {}

  lemma SeenSnoc(log: Log, r: Record, k: Key, trim: nat)
    requires RecordOk(r) && WellFormed(k)
    ensures Seen(log + [r], k, trim) ==
            if r.kind.Write? && Canon(r.key) == Canon(k) && !Trimmed(trim, r.counter) then Some(r.data)
            else if r.kind.Delete? && Canon(r.key) == Canon(k) then None
            else Seen(log, k, trim)
  {
    ReplaySnoc(log, r);
    if Canon(r.key) == Canon(k) { EqualKeysAgree(r.key, k); }
  }

  lemma ScanStart(st: State, s: nat, history: Log)
    requires Inv(st, history) && s in st.streams
    ensures var x := st.streams[s];
            && x.seqOldest <= x.seqNext && UpTo(st.disk.flash, s, x.seqOldest) == []
            && LogOk(x.buf)
  {
    hide All, OneHome, PgsOk, StatusOk, OrderOk, SizeOf;
    var x := st.streams[s];
    assert StreamOk(st.disk, st.cap, s, x);
    UpToStable(st.disk.flash, s, 0, x.seqOldest);
    assert UpTo(st.disk.flash, s, 0) == [];
    AllAt(st, s, x.seqNext);
  }

  lemma SoOk(st: State, s: nat, i: nat, history: Log)
    requires Inv(st, history) && s in st.streams && st.streams[s].seqOldest <= i < st.streams[s].seqNext
    ensures SoId(s, i) in st.disk.flash && LogOk(st.disk.flash[SoId(s, i)])
    ensures UpTo(st.disk.flash, s, i + 1) == UpTo(st.disk.flash, s, i) + st.disk.flash[SoId(s, i)]
  {
    hide All, OneHome, PgsOk, StatusOk, OrderOk, SizeOf;
    assert StreamOk(st.disk, st.cap, s, st.streams[s]);
    AllAt(st, s, i);
  }

  /** A full scan with the PG's trim position is a lookup in the replayed stream. */
  lemma SeenIsLookup(st: State, p: Pg, k: Key, history: Log)
    requires Inv(st, history) && p in st.pgs && st.pgs[p].stream in st.streams && WellFormed(k) && PgOf(k) == p
    ensures var s := st.pgs[p].stream;
            Seen(UpTo(st.disk.flash, s, st.streams[s].seqNext) + st.streams[s].buf, k, st.pgs[p].trim) ==
            Lookup(Replay(LogOf(All(st.disk), s)), k)
  {
    hide All, StatusOk, LogOf, OfPg, TrimOf;
    var s := st.pgs[p].stream;
    InvParts(st, history);
    StreamLogIs(st, s);
    ReplayTrims(LogOf(All(st.disk), s), p);
    assert st.pgs[p].trim == TrimOf(PgLog(All(st.disk), HomeOf(st.pgs), p));
  }

  // ---------------------------------------------------------------- reopening

  lemma StepsNone(d: Disk, before: seq<Disk>, reverted: set<nat>)
    ensures Steps(d, before, before, reverted) && LastDisk(d, |before|, before) == d
  {}

  lemma ScanNothing(pgs: map<Pg, PgState>, s: nat, reverted: set<nat>)
    ensures TombLog([], reverted) == [] && Scanned(pgs, s, []) == pgs
  {}

  lemma TombLogSnoc(log: Log, r: Record, reverted: set<nat>)
    ensures TombLog(log + [r], reverted) == TombLog(log, reverted) + [Tomb(r, reverted)]
  {
    TombLogConcat(log, [r], reverted);
  }

  /** While recovery scans, the SOs in `done` are rewritten and the others are not. */
  ghost predicate HalfDone(flash: Objects, f0: Objects, done: set<SoId>, reverted: set<nat>) {
    flash.Keys == f0.Keys &&
    forall id | id in f0 :: flash[id] == if id in done then TombLog(f0[id], reverted) else f0[id]
  }

  lemma HalfDoneAt(flash: Objects, f0: Objects, done: set<SoId>, reverted: set<nat>, id: SoId)
    requires HalfDone(flash, f0, done, reverted) && id in f0 && id !in done
    ensures id in flash && flash[id] == f0[id] && id in TombAll(f0, reverted) && TombAll(f0, reverted)[id] == TombLog(f0[id], reverted)
  {}

  lemma HalfDoneStep(flash: Objects, f0: Objects, done: set<SoId>, reverted: set<nat>, id: SoId)
    requires HalfDone(flash, f0, done, reverted) && id in f0
    ensures HalfDone(flash[id := TombLog(f0[id], reverted)], f0, done + {id}, reverted)
  {
    hide TombLog;
  }

  lemma AllDone(flash: Objects, f0: Objects, reverted: set<nat>)
    requires HalfDone(flash, f0, f0.Keys, reverted)
    ensures flash == TombAll(f0, reverted)
  {
    hide TombLog;
  }

  lemma RecoverStart(f0: Objects, home: map<Pg, nat>, reverted: set<nat>, d0: Disk, t0: seq<Disk>)
    requires ObjectsOk(f0) && OneHome(f0, home)
    ensures HalfDone(f0, f0, {}, reverted) && OneHome(TombAll(f0, reverted), home)
    ensures OrderOk([], {}) && StreamsScanned(map[], {}) && PgsScanned(map[], TombAll(f0, reverted), home, {})
    ensures TombAll(f0, reverted).Keys == f0.Keys
    ensures Steps(d0, t0, t0, reverted) && LastDisk(d0, |t0|, t0) == d0
  {
    TombOneHome(f0, home, reverted);
  }

  lemma SameStreams(f: Objects, g: Objects)
    requires f.Keys == g.Keys
    ensures StreamsOn(f) == StreamsOn(g)
  {
    assert forall id :: id in f <==> id in g;
  }

  lemma OrderCons(order: seq<nat>, ids: set<nat>, s: nat)
    requires OrderOk(order, ids) && s !in ids
    ensures OrderOk([s] + order, ids + {s})
  {
    assert forall i | 0 <= i < |order| :: order[i] in order;
  }

  lemma OrderApart(order: seq<nat>, ids: set<nat>, i: nat)
    requires OrderOk(order, ids) && i <= |order|
    ensures forall j | 0 <= j < |order| :: order[j] in ids
    ensures forall j | 0 <= j < |order| && i < |order| && j != i :: order[j] != order[i]
    ensures forall s | s in ids :: exists j | 0 <= j < |order| :: order[j] == s
  {
    assert forall s | s in ids :: s in order;
  }

  lemma OpeningOrder(st: State)
    requires Opening(st)
    ensures OrderOk(st.order, st.streams.Keys)
  {}

  lemma OpeningReady(st: State, s: nat)
    requires Opening(st) && s in st.streams && StatusBlank(st, s)
    requires st.streams[s].seqOldest != st.streams[s].seqNext
    ensures var x := st.streams[s];
            && x.seqOldest < x.seqNext && SoId(s, x.seqOldest) in st.disk.flash
            && OldestSo(st.disk, s, x) == st.disk.flash[SoId(s, x.seqOldest)]
            && LogOk(OldestSo(st.disk, s, x)) && Resting(st.pgs, OldestSo(st.disk, s, x))
            && x.agers == [] && x.newestTrx == 0
  {
    hide All, OneHome, PgsOk, OrderOk, PgStatuses, SizeOf;
    var x := st.streams[s];
    assert StreamOk(st.disk, st.cap, s, x);
    AllAt(st, s, x.seqOldest);
    forall r | r in OldestSo(st.disk, s, x) && !r.kind.Tombstone? ensures RestingPg(st.pgs, r.key) {
      OpeningRecords(st, s, r);
    }
  }

  lemma {:induction false} StepsJoin(d0: Disk, t0: seq<Disk>, d1: Disk, t1: seq<Disk>, t2: seq<Disk>, reverted: set<nat>)
    requires Steps(d0, t0, t1, reverted) && d1 == LastDisk(d0, |t0|, t1) && Steps(d1, t1, t2, reverted)
    ensures Steps(d0, t0, t2, reverted) && LastDisk(d0, |t0|, t2) == LastDisk(d1, |t1|, t2)
  {
    hide RecoveryStep;
    assert t2[..|t0|] == t2[..|t1|][..|t0|];
    assert |t2| == |t1| ==> t2 == t1;
    forall i | |t0| <= i < |t2|
      ensures RecoveryStep(LastDisk(d0, |t0|, t2[..i]), t2[i], reverted)
    {
      if i < |t1| {
        assert t2[..i] == t1[..i] && t2[i] == t1[i];
      } else {
        assert RecoveryStep(LastDisk(d1, |t1|, t2[..i]), t2[i], reverted);
        assert i == |t1| ==> t2[..i] == t1;
      }
    }
  }

  lemma RebuiltFlash(flash: Objects, home: map<Pg, nat>, reverted: set<nat>)
    requires Contiguous(flash) && ObjectsOk(flash) && OneHome(flash, home)
    ensures var g := TombAll(flash, reverted); Contiguous(g) && ObjectsOk(g) && OneHome(g, home)
  {
    hide OneHome;
    TombOneHome(flash, home, reverted);
    var g := TombAll(flash, reverted);
    assert g.Keys == flash.Keys;
  }

  lemma RebuiltOpening(st: State, home: map<Pg, nat>)
    requires Rebuilt(st, home)
    ensures Opening(st)
  {
    hide PgsScanned, StreamsFound, All, OneHome, OrderOk;
    RebuiltShape(st, home);
    RebuiltPgsOk(st, home);
    RebuiltOneHome(st.disk.flash, home, st.pgs);
  }

  lemma RebuiltEmpty(st: State, home: map<Pg, nat>)
    requires Rebuilt(st, home)
    ensures forall s | s in st.disk.nv :: st.disk.nv[s].NvEmpty?
  {}

  lemma RebuiltOneHome(flash: Objects, home: map<Pg, nat>, pgs: map<Pg, PgState>)
    requires OneHome(flash, home) && PgsScanned(pgs, flash, home, flash.Keys)
    ensures OneHome(flash, HomeOf(pgs))
  {
    hide OfPg, NewestTrim;
    forall s: nat, p: Pg ensures HomeAt(flash, HomeOf(pgs), s, p) {
      assert HomeAt(flash, home, s, p);
      if p in home && p !in pgs { UnmetPg(flash, home, pgs, p); }
    }
  }

  lemma OpeningValid(st: State)
    requires Opening(st) && forall s | s in st.streams :: StatusOk(st, s)
    ensures forall h: Log :: Represents(All(st.disk), HomeOf(st.pgs), h) ==> Inv(st, h)
  {
    hide StatusOk, StreamsOk, ShapeOk, PgsOk, All, Represents, OneHome;
  }
}
