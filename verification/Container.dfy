/** The state of one logging container and the steps that change it, as values.

    `Disk` is what survives a crash: SOs on flash and the NVRAM buffer of each stream.
    The rest is memory: the streams with their open buffers, the round-robin hand and
    the table of placement groups. */
module Container {
  import opened Keys
  import opened LogSpec
  import opened Flash

  /** Content of an NVRAM buffer: an SO header with its number, and whole records. */
  datatype NvBuffer = NvEmpty | NvLive(seqno: nat, recs: Log)
  datatype Disk = Disk(flash: Objects, nv: map<nat, NvBuffer>)

  /** streamstructure; `agers` is the list of PGs linked through `streamlink`. */
  datatype Stream = Stream(seqOldest: nat, seqNext: nat, buf: Log, bufNexti: nat,
                           newestTrx: nat, agers: seq<Pg>)
  /** pgstructure; `newest` is meaningful while `aging`. */
  datatype PgState = PgState(stream: nat, trim: nat, newest: nat, aging: bool)

  datatype State = State(disk: Disk, cap: nat, order: seq<nat>, streams: map<nat, Stream>,
                         hand: nat, pgs: map<Pg, PgState>)

  /** Reclamation is attempted once per this many SOs. */
  const RATE: nat := 10
  const MAX_LREC: nat := LREC_HEADER + BYTES_PER_LOGGING_OBJECT

  /** The SOs a disk holds once its NVRAM buffers are flushed over the flash. */
  function All(disk: Disk): Objects {
    disk.flash + map s | s in disk.nv && disk.nv[s].NvLive? :: SoId(s, disk.nv[s].seqno) := disk.nv[s].recs
  }

  function HomeOf(pgs: map<Pg, PgState>): map<Pg, nat> { map p | p in pgs :: pgs[p].stream }

  // ---------------------------------------------------- status of the oldest SO

  /** Largest trx among the live records. */
  function MaxTrx(so: Log): nat {
    if so == [] then 0
    else
      var m, r := MaxTrx(so[..|so| - 1]), so[|so| - 1];
      if !r.kind.Tombstone? && m < r.trx then r.trx else m
  }

  /** The PGs with live records, each once, the latest newcomer first. */
  function AgersOf(so: Log): seq<Pg> {
    if so == [] then []
    else
      var l, r := AgersOf(so[..|so| - 1]), so[|so| - 1];
      if !r.kind.Tombstone? && WellFormed(r.key) && PgOf(r.key) !in l then [PgOf(r.key)] + l else l
  }

  /** Newest counter of a list of records. */
  function NewestOf(log: Log): nat {
    if log == [] then 0
    else if |log| == 1 then log[0].counter
    else Newest(NewestOf(log[..|log| - 1]), log[|log| - 1].counter)
  }

  function Marked(pgs: map<Pg, PgState>, so: Log): map<Pg, PgState> {
    map p | p in pgs :: if OfPg(so, p) == [] then pgs[p]
                        else pgs[p].(newest := NewestOf(OfPg(so, p)), aging := true)
  }

  function Cleared(pgs: map<Pg, PgState>, agers: seq<Pg>): map<Pg, PgState> {
    map p | p in pgs :: if p in agers then pgs[p].(aging := false) else pgs[p]
  }

  /** sostatus, recording the status of `so` in stream `s`. */
  function WithStatus(st: State, s: nat, so: Log): State
    requires s in st.streams
  {
    st.(streams := st.streams[s := st.streams[s].(newestTrx := MaxTrx(so), agers := AgersOf(so))],
        pgs := Marked(st.pgs, so))
  }

  /** sostatusclear. */
  function WithoutStatus(st: State, s: nat): State
    requires s in st.streams
  {
    st.(streams := st.streams[s := st.streams[s].(newestTrx := 0, agers := [])],
        pgs := Cleared(st.pgs, st.streams[s].agers))
  }

  /** sostatusreclaimable, given the oldest active trx. */
  predicate Reclaimable(st: State, s: nat, oldestTrx: nat)
    requires s in st.streams
  {
    st.streams[s].newestTrx < oldestTrx &&
    forall p | p in st.streams[s].agers :: p in st.pgs && st.pgs[p].newest < Newest(0, st.pgs[p].trim)
  }

  /** One look at the oldest SO of a stream.  What trxoldest returns may differ from one look to the next. */
  datatype Look = Look(stream: nat, seqNext: nat, seqOldest: nat)
  type Scans = Look -> nat

  /** sostatusreclaimable, with the scan made for this look. */
  predicate ReclaimableNow(st: State, s: nat, oldest: Scans)
    requires s in st.streams
  {
    Reclaimable(st, s, oldest(Look(s, st.streams[s].seqNext, st.streams[s].seqOldest)))
  }

  // ------------------------------------------------------------ steps of a write

  /** First device step of a flush: the full buffer becomes an SO. */
  function FlushedFlash(st: State, s: nat): State
    requires s in st.streams
  {
    var x := st.streams[s];
    st.(disk := st.disk.(flash := st.disk.flash[SoId(s, x.seqNext) := x.buf]))
  }

  /** Second device step: the NVRAM buffer is reset. */
  function FlushedNv(st: State, s: nat): State {
    st.(disk := st.disk.(nv := st.disk.nv[s := NvEmpty]))
  }

  /** What a flush does to memory: status of a sole SO, and an empty buffer. */
  function FlushedMemory(st: State, s: nat): State
    requires s in st.streams
  {
    var x := st.streams[s];
    var st' := if x.seqOldest == x.seqNext then WithStatus(st, s, x.buf) else st;
    st'.(streams := st'.streams[s := st'.streams[s].(buf := [], bufNexti := 0, seqNext := x.seqNext + 1)])
  }

  function Flushed(st: State, s: nat): State
    requires s in st.streams
  {
    FlushedMemory(FlushedNv(FlushedFlash(st, s), s), s)
  }

  /** One round of streamreclaim: delete the oldest SO and take the status of the next. */
  function ReclaimedOne(st: State, s: nat): State
    requires s in st.streams
  {
    var x := st.streams[s];
    var st1 := WithoutStatus(st.(disk := st.disk.(flash := st.disk.flash - {SoId(s, x.seqOldest)})), s);
    var st2 := st1.(streams := st1.streams[s := st1.streams[s].(seqOldest := x.seqOldest + 1)]);
    WithStatus(st2, s, SoAt(st.disk.flash, SoId(s, x.seqOldest + 1)))
  }

  function Reclaimed(st: State, s: nat, oldest: Scans): State
    requires s in st.streams
    decreases st.streams[s].seqNext - st.streams[s].seqOldest
  {
    if ReclaimableNow(st, s, oldest) && st.streams[s].seqOldest + 1 < st.streams[s].seqNext
    then Reclaimed(ReclaimedOne(st, s), s, oldest) else st
  }

  /** The record goes to the open buffer and to NVRAM. */
  function Appended(st: State, s: nat, r: Record): State
    requires s in st.streams
  {
    var x := st.streams[s];
    st.(streams := st.streams[s := x.(buf := x.buf + [r], bufNexti := x.bufNexti + LrecSize(r))],
        disk := st.disk.(nv := st.disk.nv[s := NvLive(x.seqNext, x.buf + [r])]))
  }

  predicate Fits(st: State, s: nat, r: Record)
    requires s in st.streams
  {
    LrecSize(r) + st.streams[s].bufNexti <= st.cap
  }

  /** Flush the full buffer and, at the reclamation rate, delete old SOs. */
  function RoomMade(st: State, s: nat, oldest: Scans): (st': State)
    requires s in st.streams
    ensures st'.streams.Keys == st.streams.Keys
  {
    var st1 := Flushed(st, s);
    ReclaimedKeepsStream(st1, s, oldest);
    if st1.streams[s].seqNext % RATE == 0 then Reclaimed(st1, s, oldest) else st1
  }

  /** streamwrite. */
  function StreamWritten(st: State, s: nat, r: Record, oldest: Scans): State
    requires s in st.streams
  {
    Appended(if Fits(st, s, r) then st else RoomMade(st, s, oldest), s, r)
  }

  lemma {:induction false} ReclaimedKeepsStream(st: State, s: nat, oldest: Scans)
    requires s in st.streams
    ensures Reclaimed(st, s, oldest).streams.Keys == st.streams.Keys
    decreases st.streams[s].seqNext - st.streams[s].seqOldest
  {
    if ReclaimableNow(st, s, oldest) && st.streams[s].seqOldest + 1 < st.streams[s].seqNext {
      ReclaimedKeepsStream(ReclaimedOne(st, s), s, oldest);
    }
  }

  /** pglookup: a new PG gets the stream under the hand, and the hand moves on. */
  function WithPg(st: State, p: Pg): State
    requires st.hand < |st.order|
  {
    if p in st.pgs then st
    else st.(pgs := st.pgs[p := PgState(st.order[st.hand], UNKNOWN, 0, false)],
             hand := if st.hand + 1 < |st.order| then st.hand + 1 else 0)
  }

  /** A TRIM moves its PG's trim position. */
  function Bumped(st: State, r: Record): State {
    if r.kind.Trim? && WellFormed(r.key) && PgOf(r.key) in st.pgs then
      var p := PgOf(r.key);
      st.(pgs := st.pgs[p := st.pgs[p].(trim := Newest(st.pgs[p].trim, r.counter))])
    else st
  }

  // ---------------------------------------------------------------- invariant

  /** The list of streams names each stream once. */
  ghost predicate OrderOk(order: seq<nat>, ids: set<nat>) {
    && (forall i, j | 0 <= i < j < |order| :: order[i] != order[j])
    && (forall s :: s in order <==> s in ids)
  }

  ghost predicate StreamsOk(st: State) {
    && st.cap >= MAX_LREC
    && st.hand < |st.order|
    && OrderOk(st.order, st.streams.Keys)
    && st.disk.nv.Keys == st.streams.Keys
  }

  ghost predicate Numbered(flash: Objects, s: nat, lo: nat, hi: nat) {
    forall i: nat :: SoId(s, i) in flash <==> lo <= i < hi
  }

  /** Flash holds exactly SOs seqoldest..seqnext-1 of each stream; NVRAM mirrors the
      open buffer; the buffer is as long as bufnexti says and within bounds. */
  ghost predicate StreamOk(disk: Disk, cap: nat, s: nat, x: Stream) {
    && x.seqOldest <= x.seqNext
    && Numbered(disk.flash, s, x.seqOldest, x.seqNext)
    && s in disk.nv
    && disk.nv[s] == (if x.buf == [] then NvEmpty else NvLive(x.seqNext, x.buf))
    && x.bufNexti == SizeOf(x.buf) <= cap
  }

  ghost predicate ShapeOk(st: State) {
    && (forall s | s in st.streams :: StreamOk(st.disk, st.cap, s, st.streams[s]))
    && (forall id | id in st.disk.flash :: id.stream in st.streams)
  }

  ghost function OldestSo(disk: Disk, s: nat, x: Stream): Log {
    if x.seqOldest < x.seqNext then SoAt(disk.flash, SoId(s, x.seqOldest)) else []
  }

  /** The cached reclamation status describes exactly the oldest SO of the stream. */
  ghost predicate StatusOk(st: State, s: nat)
    requires s in st.streams
  {
    var x, so := st.streams[s], OldestSo(st.disk, s, st.streams[s]);
    x.newestTrx == MaxTrx(so) && x.agers == AgersOf(so) && PgStatuses(st.pgs, s, so)
  }

  ghost predicate PgStatuses(pgs: map<Pg, PgState>, s: nat, so: Log) {
    forall p | p in pgs && pgs[p].stream == s :: PgStatusOk(pgs[p], OfPg(so, p))
  }

  ghost predicate PgStatusOk(pg: PgState, own: Log) {
    && (pg.aging <==> own != [])
    && (pg.aging ==> pg.newest == NewestOf(own))
  }

  ghost predicate PgsOk(st: State) {
    forall p | p in st.pgs ::
      && st.pgs[p].stream in st.streams
      && st.pgs[p].trim == TrimOf(PgLog(All(st.disk), HomeOf(st.pgs), p))
  }

  /** The container is in order and stands for the given history. */
  ghost predicate Inv(st: State, history: Log) {
    && StreamsOk(st)
    && ShapeOk(st)
    && (forall s | s in st.streams :: StatusOk(st, s))
    && PgsOk(st)
    && Represents(All(st.disk), HomeOf(st.pgs), history)
  }
}
