/** SO names over time: the newest SO of a stream is never deleted and new SOs are numbered
    above it, so a name that has been deleted from flash is never written again. */
module Lineage {
  import opened Keys
  import opened LogSpec
  import opened Flash
  import opened Container
  import opened ContainerProofs
  import opened Recovery

  /** The stream of `id` still has an SO numbered as high. */
  ghost predicate Topped(ids: set<SoId>, id: SoId) {
    exists j | j in ids :: j.stream == id.stream && id.seqno <= j.seqno
  }

  /** `id` is numbered above every SO of its stream. */
  ghost predicate Above(ids: set<SoId>, id: SoId) {
    forall j | j in ids && j.stream == id.stream :: j.seqno < id.seqno
  }

  /** What one disk may become: no stream's highest number falls, new SOs are numbered above
      all others, and an SO leaves flash only by being deleted. */
  ghost predicate Later(d: Disk, e: Disk) {
    var ids, ids' := All(d).Keys, All(e).Keys;
    && (forall id | id in ids :: Topped(ids', id))
    && (forall id | id in ids' && id !in ids :: Above(ids, id))
    && (forall id | id in d.flash && id in ids' :: id in e.flash)
  }

  lemma LaterSame(d: Disk, e: Disk)
    requires All(d).Keys == All(e).Keys && d.flash.Keys <= e.flash.Keys
    ensures Later(d, e)
  {
    forall id | id in All(d).Keys ensures Topped(All(e).Keys, id) {}
  }

  lemma NotBoth(ids: set<SoId>, id: SoId)
    ensures !(Topped(ids, id) && Above(ids, id))
  {}

  lemma ToppedAgain(a: set<SoId>, b: set<SoId>, id: SoId)
    requires Topped(a, id) && forall j | j in a :: Topped(b, j)
    ensures Topped(b, id)
  {
    var j :| j in a && j.stream == id.stream && id.seqno <= j.seqno;
    assert Topped(b, j);
  }

  lemma AboveBefore(a: set<SoId>, b: set<SoId>, id: SoId)
    requires Above(b, id) && forall j | j in a :: Topped(b, j)
    ensures Above(a, id)
  {
    forall j | j in a && j.stream == id.stream ensures j.seqno < id.seqno { assert Topped(b, j); }
  }

  lemma LaterTransitive(d: Disk, e: Disk, f: Disk)
    requires Later(d, e) && Later(e, f)
    ensures Later(d, f)
  {
    hide All, Topped, Above;
    var a, b, c := All(d).Keys, All(e).Keys, All(f).Keys;
    forall id | id in a ensures Topped(c, id) { ToppedAgain(b, c, id); }
    forall id | id in c && id !in a ensures Above(a, id) {
      if id !in b { AboveBefore(a, b, id); }
    }
    forall id | id in d.flash && id in c ensures id in f.flash {
      FlashInAll(d, id);
      if id !in b { NotBoth(b, id); }
    }
  }

  lemma FlashInAll(d: Disk, id: SoId)
    requires id in d.flash
    ensures id in All(d)
  {}

  /** An SO that has been deleted never comes back. */
  lemma DeletedForGood(d: Disk, e: Disk, f: Disk, id: SoId)
    requires Later(d, e) && Later(e, f) && id in d.flash && id !in e.flash
    ensures id !in f.flash
  {
    hide All, Topped, Above;
    FlashInAll(d, id);
    if id in f.flash {
      FlashInAll(f, id);
      NotBoth(All(e).Keys, id);
    }
  }

  // ------------------------------------------------------------ the device steps

  /** Reclamation leaves the next SO of the stream. */
  lemma ReclaimedLater(st: State, s: nat)
    requires StreamsOk(st) && ShapeOk(st) && s in st.streams
    requires st.streams[s].seqOldest + 1 < st.streams[s].seqNext
    ensures Later(st.disk, ReclaimedOne(st, s).disk)
  {
    hide ReclaimedOne, All, SizeOf, MaxTrx, AgersOf, Marked, Cleared, StreamsOk;
    ReclaimedAll(st, s);
    ReclaimedFields(st, s);
    var d, e, id := st.disk, ReclaimedOne(st, s).disk, SoId(s, st.streams[s].seqOldest);
    var next := SoId(s, id.seqno + 1);
    assert StreamOk(st.disk, st.cap, s, st.streams[s]);
    FlashInAll(d, next);
    assert next in All(e).Keys;
    forall j | j in All(d).Keys ensures Topped(All(e).Keys, j) {
      if j != id { assert j in All(e).Keys; }
    }
  }

  lemma AppendedIds(st: State, s: nat, recs: Log)
    requires StreamsOk(st) && ShapeOk(st) && s in st.streams
    ensures var id := SoId(s, st.streams[s].seqNext);
            && All(st.disk.(nv := st.disk.nv[s := NvLive(id.seqno, recs)])).Keys == All(st.disk).Keys + {id}
            && (id !in All(st.disk).Keys ==> Above(All(st.disk).Keys, id))
  {
    hide All, SizeOf, StreamsOk;
    var d, x := st.disk, st.streams[s];
    var e := d.(nv := d.nv[s := NvLive(x.seqNext, recs)]);
    assert StreamOk(st.disk, st.cap, s, x);
    forall j: SoId ensures j in All(e) <==> j in All(d) || j == SoId(s, x.seqNext) {
      AllIs(d, j);
      AllIs(e, j);
    }
    forall i | i in All(d).Keys && i.stream == s ensures i.seqno <= x.seqNext { AllStreams(st, i); }
  }

  /** An NVRAM write opens the SO above all others of its stream, or extends it. */
  lemma AppendedLater(st: State, s: nat, recs: Log)
    requires StreamsOk(st) && ShapeOk(st) && s in st.streams
    ensures Later(st.disk, st.disk.(nv := st.disk.nv[s := NvLive(st.streams[s].seqNext, recs)]))
  {
    hide All, StreamsOk, ShapeOk, Above;
    AppendedIds(st, s, recs);
    var d := st.disk;
    var e := d.(nv := d.nv[s := NvLive(st.streams[s].seqNext, recs)]);
    forall j | j in All(d).Keys ensures Topped(All(e).Keys, j) { assert j in All(e).Keys; }
  }

  /** A full buffer written to flash, and its NVRAM buffer then reset. */
  lemma FlushedLater(st: State, s: nat)
    requires StreamsOk(st) && ShapeOk(st) && s in st.streams && st.streams[s].buf != []
    ensures Later(st.disk, FlushedFlash(st, s).disk)
    ensures Later(FlushedFlash(st, s).disk, FlushedNv(FlushedFlash(st, s), s).disk)
  {
    hide All, StreamsOk, ShapeOk;
    FlushKeepsAll(st, s);
    LaterSame(st.disk, FlushedFlash(st, s).disk);
    LaterSame(FlushedFlash(st, s).disk, FlushedNv(FlushedFlash(st, s), s).disk);
  }

  lemma RecoveryLater(d: Disk, e: Disk, reverted: set<nat>)
    requires RecoveryStep(d, e, reverted)
    ensures Later(d, e)
  {
    hide All;
    RecoveryStepKeeps(d, e, reverted);
    LaterSame(d, e);
  }

  // ------------------------------------------------------------------ sequences

  /** Disks in the order they came about. */
  ghost predicate Lineal(disks: seq<Disk>) {
    forall i, j | 0 <= i <= j < |disks| :: Later(disks[i], disks[j])
  }

  lemma LinealOne(d: Disk)
    ensures Lineal([d])
  {
    hide All;
    LaterSame(d, d);
  }

  lemma LinealSnoc(disks: seq<Disk>, d: Disk)
    requires Lineal(disks) && disks != [] && Later(disks[|disks| - 1], d)
    ensures Lineal(disks + [d])
  {
    hide Later, All;
    LinealOne(d);
    var ds := disks + [d];
    forall i, j | 0 <= i <= j < |ds| ensures Later(ds[i], ds[j]) {
      if j == |disks| {
        if i < j {
          LaterTransitive(disks[i], disks[|disks| - 1], d);
        } else {
          assert [d][0] == d && Later([d][0], [d][0]);
        }
      }
    }
  }

  lemma LinealJoin(a: seq<Disk>, b: seq<Disk>)
    requires Lineal(a) && Lineal(b) && a != [] && b != [] && Later(a[|a| - 1], b[0])
    ensures Lineal(a + b)
  {
    hide Later, All;
    var ds := a + b;
    forall i, j | 0 <= i <= j < |ds| ensures Later(ds[i], ds[j]) {
      if i < |a| <= j {
        LaterTransitive(a[i], a[|a| - 1], b[0]);
        LaterTransitive(a[i], b[0], b[j - |a|]);
      }
    }
  }

  /** The disks of a container: the one it was handed, then one after every device step; the
      last of them is the present one. */
  ghost predicate Descends(start: Disk, trace: seq<Disk>, now: Disk) {
    Lineal([start] + trace) && now == LastDisk(start, 0, trace)
  }

  lemma DescendsStart(d: Disk)
    ensures Descends(d, [], d)
  {
    LinealOne(d);
    assert [d] + [] == [d];
  }

  lemma DescendsStep(start: Disk, trace: seq<Disk>, d: Disk, e: Disk)
    requires Descends(start, trace, d) && Later(d, e)
    ensures Descends(start, trace + [e], e)
  {
    hide Later, Lineal;
    LinealSnoc([start] + trace, e);
    assert [start] + trace + [e] == [start] + (trace + [e]);
  }

  /** Recovery keeps the order. */
  lemma {:induction false} DescendsSteps(start: Disk, d: Disk, before: seq<Disk>, after: seq<Disk>, reverted: set<nat>)
    requires Descends(start, before, d) && Steps(d, before, after, reverted)
    ensures Descends(start, after, LastDisk(d, |before|, after))
  {
    hide Later, RecoveryStep, Descends;
    if |after| == |before| {
      assert after == before;
    } else {
      var n := |after| - 1;
      var e := LastDisk(d, |before|, after[..n]);
      assert Steps(d, before, after[..n], reverted) by { StepsShorter(d, before, after, reverted, n); }
      DescendsSteps(start, d, before, after[..n], reverted);
      RecoveryLater(e, after[n], reverted);
      DescendsStep(start, after[..n], e, after[n]);
      assert after[..n] + [after[n]] == after;
    }
  }

  lemma StepsShorter(d: Disk, before: seq<Disk>, after: seq<Disk>, reverted: set<nat>, n: nat)
    requires Steps(d, before, after, reverted) && |before| <= n <= |after|
    ensures Steps(d, before, after[..n], reverted)
  {
    hide RecoveryStep;
    assert after[..n][..|before|] == before;
    forall i | |before| <= i < n ensures RecoveryStep(LastDisk(d, |before|, after[..n][..i]), after[..n][i], reverted) {
      assert after[..n][..i] == after[..i];
    }
  }

  /** The first disks of a container are in order, and the last of them is the one cut off at. */
  lemma LinealCut(start: Disk, trace: seq<Disk>, now: Disk, n: nat)
    requires Descends(start, trace, now) && n <= |trace|
    ensures Lineal([start] + trace[..n]) && ([start] + trace[..n])[n] == LastDisk(start, 0, trace[..n])
    ensures n == |trace| ==> LastDisk(start, 0, trace[..n]) == now
  {
    hide Later;
    var all, part := [start] + trace, [start] + trace[..n];
    assert forall i | 0 <= i <= n :: part[i] == all[i];
    assert trace[..|trace|] == trace;
  }
}
