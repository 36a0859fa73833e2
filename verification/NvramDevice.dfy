/** Concurrent syncs of one NVRAM buffer down to the device: what the blocks hold while any number of
    threads append and sync.

    The control of the sync is that of module NvramSync.  A sync reads nso_off once, stamps the blocks
    with LSNs and checksums, and then writes them from the memory that others go on appending to.  The
    checksum is taken to tell any two different blocks apart: a cell of the device is the block
    written and the block its checksum was computed from. */
module NvramDevice {
  import opened Keys
  import opened Nvram
  import Sync = NvramSync

  datatype Cell = Cell(block: Block, sum: Block)

  /** How far the thread inside the sync has got: its blocks are `f` to `e`, and `base` is what the
      buffer held and `low` the LSN counter when they were stamped. */
  datatype Io =
    | Quiet
    | Captured(goal: Chunks)
    | Sealed(goal: Chunks, f: nat, e: nat, sums: seq<Block>, base: Chunks, low: nat)
    | Written(goal: Chunks)

  /** Control, memory, device and LSN counter; and, for the statements, the bytes that nso_off, the
      device and nso_syncoff stand for. */
  datatype World = World(g: Geometry, ctl: Sync.State, mem: seq<Block>, parts: seq<seq<Cell>>, partition: nat, lsn: nat,
                         io: Io, chunks: Chunks, durable: Chunks, synced: Chunks, resetLsn: nat)

  /** The blocks of a partition, without their checksums. */
  function BlocksOf(part: seq<Cell>): (bs: seq<Block>)
    ensures |bs| == |part| && forall j | 0 <= j < |part| :: bs[j] == part[j].block
  {
    seq(|part|, j requires 0 <= j < |part| => part[j].block)
  }

  function Device(parts: seq<seq<Cell>>): (ps: seq<seq<Block>>)
    ensures |ps| == |parts| && forall p | 0 <= p < |parts| :: ps[p] == BlocksOf(parts[p])
  {
    seq(|parts|, p requires 0 <= p < |parts| => BlocksOf(parts[p]))
  }

  /** nvr_rebuild accepts the device: no checksum fails. */
  ghost predicate Sound(parts: seq<seq<Cell>>) {
    forall p, j | 0 <= p < |parts| && 0 <= j < |parts[p]| :: parts[p][j].block == parts[p][j].sum
  }

  // --------------------------------------------------------------------- steps

  /** Memory after an append: it holds the new bytes, no LSN moves, and a block whose bytes stay the
      same stays the same. */
  ghost predicate Touched(g: Geometry, mem: seq<Block>, c: Chunks, mem': seq<Block>, c': Chunks)
    requires g.Ok()
  {
    && |mem'| == |mem| && MemoryHolds(g, mem', c') && (forall j | 0 <= j < |mem| :: mem'[j].lsn == mem[j].lsn)
    && forall j | 0 <= j < |c| && j < |c'| && j < |mem| && c[j] == c'[j] :: mem'[j] == mem[j]
  }

  ghost predicate Append(w: World, w': World, x: Bytes)
    requires w.g.Ok() && Chunked(w.g, w.chunks)
  {
    var c := AppendChunks(w.g, w.chunks, x);
    && w.ctl.off <= OffOf(w.g, c) <= w.g.limit && Touched(w.g, w.mem, w.chunks, w'.mem, c)
    && w' == w.(chunks := c, mem := w'.mem, ctl := Sync.Appended(w.ctl, OffOf(w.g, c) - w.ctl.off))
  }

  /** A call, a return that finds its offset synced, or an entry into the sync. */
  ghost predicate Control(w: World, w': World) {
    && ((exists t: nat, off: nat, aligned: bool :: Sync.Call(w.ctl, w'.ctl, t, off, aligned)) ||
        (exists t: nat :: Sync.Saved(w.ctl, w'.ctl, t)) || (exists t: nat :: Sync.Enter(w.ctl, w'.ctl, t)))
    && w' == w.(ctl := w'.ctl)
  }

  /** nso_off is read, and the sync decides how far it goes. */
  ghost predicate Capture(w: World, w': World, t: nat)
    requires w.ctl.blk > 0
  {
    && w.io.Quiet? && Sync.Capture(w.ctl, w'.ctl, t)
    && var whole := w'.ctl.threads[t].tmp == w.ctl.off;
       (whole || w.chunks != []) &&
       w' == w.(ctl := w'.ctl, io := Captured(if whole then w.chunks else w.chunks[..|w.chunks| - 1]))
  }

  /** The first block to write, and the one past the last. */
  function From(g: Geometry, syncoff: nat): nat
    requires g.Ok()
  {
    syncoff / g.blk
  }

  function UpTo(g: Geometry, tmp: nat): nat
    requires g.Ok()
  {
    RoundUp(tmp, g.blk) / g.blk
  }

  /** LSNs and checksums. */
  ghost predicate Stamp(w: World, w': World)
    requires w.g.Ok()
  {
    w.io.Captured? && StampBlocks(w, w', From(w.g, w.ctl.syncoff), UpTo(w.g, OffOf(w.g, w.io.goal)))
  }

  ghost predicate StampBlocks(w: World, w': World, f: nat, e: nat)
    requires w.io.Captured?
  {
    f <= e <= |w.mem| &&
    var mem := Stamped(w.mem, f, e, w.lsn);
    w' == w.(mem := mem, lsn := w.lsn + (e - f), io := Sealed(w.io.goal, f, e, mem, w.chunks, w.lsn))
  }

  function WrittenCells(part: seq<Cell>, mem: seq<Block>, sums: seq<Block>, f: nat, e: nat): (q: seq<Cell>)
    requires f <= e <= |mem| == |sums| == |part|
    ensures |q| == |part|
    ensures forall j | 0 <= j < |part| :: q[j] == if f <= j < e then Cell(mem[j], sums[j]) else part[j]
  {
    seq(|part|, j requires 0 <= j < |part| => if f <= j < e then Cell(mem[j], sums[j]) else part[j])
  }

  /** pwrite, from memory as it is now. */
  ghost predicate Put(w: World, w': World) {
    && w.io.Sealed? && w.partition < |w.parts|
    && w.io.f <= w.io.e <= |w.mem| == |w.io.sums| == |w.parts[w.partition]| && w.io.e <= |w.chunks|
    && w' == w.(parts := w.parts[w.partition :=
                           WrittenCells(w.parts[w.partition], w.mem, w.io.sums, w.io.f, w.io.e)],
                partition := (w.partition + 1) % |w.parts|, durable := w.chunks[..w.io.e], io := Written(w.io.goal))
  }

  /** nso_syncoff is published. */
  ghost predicate Finish(w: World, w': World, t: nat) {
    w.io.Written? && Sync.Finish(w.ctl, w'.ctl, t) && w' == w.(ctl := w'.ctl, synced := w.io.goal, io := Quiet)
  }

  /** Other buffers take LSNs. */
  ghost predicate Others(w: World, w': World, n: nat) { w' == w.(lsn := w.lsn + n) }

  ghost predicate Step(w: World, w': World)
    requires w.g.Ok() && w.ctl.blk > 0 && Chunked(w.g, w.chunks)
  {
    || (exists x: Bytes :: Append(w, w', x))
    || Control(w, w')
    || (exists t: nat :: Capture(w, w', t))
    || Stamp(w, w')
    || Put(w, w')
    || (exists t: nat :: Finish(w, w', t))
    || (exists n: nat :: Others(w, w', n))
  }

  // ----------------------------------------------------------------- invariant

  ghost predicate MemoryOk(w: World) {
    && w.g.Ok() && w.ctl.blk == w.g.blk && Sync.Inv(w.ctl)
    && Chunked(w.g, w.chunks) && w.ctl.off == OffOf(w.g, w.chunks) && MemoryHolds(w.g, w.mem, w.chunks)
  }

  ghost predicate DeviceOk(w: World)
    requires w.g.Ok()
  {
    && 1 <= |w.parts| <= 2 && w.partition < |w.parts| && (forall p | 0 <= p < |w.parts| :: |w.parts[p]| == w.g.blocks)
    && Chunked(w.g, w.durable) && Behind(w.durable, w.chunks)
    && Holds(w.g, Merged(Device(w.parts)), w.durable, w.resetLsn, w.lsn)
    && Chunked(w.g, w.synced) && Behind(w.synced, w.durable) && w.ctl.syncoff == OffOf(w.g, w.synced)
  }

  ghost predicate GoalOk(w: World, goal: Chunks)
    requires w.g.Ok()
  {
    && Chunked(w.g, goal) && Behind(goal, w.chunks) && Behind(w.synced, goal)
    && exists t :: t in w.ctl.threads && w.ctl.threads[t].Writing? && w.ctl.threads[t].tmp == OffOf(w.g, goal)
  }

  /** The blocks to be written have LSNs in order, beyond `low`. */
  ghost predicate Freshly(mem: seq<Block>, f: nat, e: nat, low: nat, lsn: nat) {
    && e <= |mem| && low <= lsn && (forall i, j | f <= i < j < e :: mem[i].lsn < mem[j].lsn)
    && forall j | f <= j < e :: low < mem[j].lsn <= lsn
  }

  /** A block to be written differs from what its checksum was computed from exactly if bytes were
      appended to it since. */
  ghost predicate Drifted(mem: seq<Block>, sums: seq<Block>, c: Chunks, base: Chunks, f: nat, e: nat) {
    && f <= e <= |mem| == |sums| && e <= |c| && e <= |base|
    && forall j | f <= j < e :: mem[j] == sums[j] <==> c[j] == base[j]
  }

  ghost predicate SealOk(w: World, goal: Chunks, f: nat, e: nat, sums: seq<Block>, base: Chunks, low: nat)
    requires w.g.Ok() && DeviceOk(w)
  {
    && f == FirstBlock(w.g, w.synced) <= e == |goal|
    && Chunked(w.g, base) && Behind(goal, base) && Behind(base, w.chunks)
    && Drifted(w.mem, sums, w.chunks, base, f, e) && Freshly(w.mem, f, e, low, w.lsn)
    && Holds(w.g, Merged(Device(w.parts)), w.durable, w.resetLsn, low) && MemoryHolds(w.g, sums, base)
    && forall j | f <= j < e :: w.mem[j].lsn == sums[j].lsn
  }

  ghost predicate IoOk(w: World)
    requires w.g.Ok() && DeviceOk(w)
  {
    match w.io
    case Quiet => |w.durable| == |w.synced| && forall t | t in w.ctl.threads :: !w.ctl.threads[t].Writing?
    case Captured(goal) => |w.durable| == |w.synced| && GoalOk(w, goal)
    case Sealed(goal, f, e, sums, base, low) =>
      |w.durable| == |w.synced| && GoalOk(w, goal) && SealOk(w, goal, f, e, sums, base, low)
    case Written(goal) => |w.durable| == |goal| && GoalOk(w, goal) && Behind(goal, w.durable)
  }

  ghost predicate Inv(w: World) { MemoryOk(w) && DeviceOk(w) && IoOk(w) }

  /** A formatted device, and nobody inside. */
  ghost predicate Start(w: World) {
    && w.g.Ok() && Sync.Start(w.ctl) && w.ctl.blk == w.g.blk && w.io.Quiet?
    && w.chunks == [] && w.durable == [] && w.synced == [] && MemoryHolds(w.g, w.mem, [])
    && 1 <= |w.parts| <= 2 && w.partition < |w.parts| && (forall p | 0 <= p < |w.parts| :: |w.parts[p]| == w.g.blocks)
    && Holds(w.g, Merged(Device(w.parts)), [], w.resetLsn, w.lsn) && Sound(w.parts)
  }

  lemma StartInv(w: World)
    requires Start(w)
    ensures Inv(w)
  {
    hide Merged, Holds, MemoryHolds;
    Sync.StartInv(w.ctl);
  }

  // --------------------------------------------------------------- small facts

  lemma BehindTrans(a: Chunks, b: Chunks, c: Chunks)
    requires Behind(a, b) && Behind(b, c)
    ensures Behind(a, c)
  {}

  lemma BehindItself(c: Chunks)
    ensures Behind(c, c)
  {}

  lemma HoldsMore(g: Geometry, d: seq<Block>, c: Chunks, resetLsn: nat, lsn: nat, lsn': nat)
    requires g.Ok() && Holds(g, d, c, resetLsn, lsn) && lsn <= lsn'
    ensures Holds(g, d, c, resetLsn, lsn')
  {}

  /** A prefix of whole chunks. */
  lemma BehindCut(g: Geometry, goal: Chunks, c: Chunks)
    requires g.Ok() && Chunked(g, c) && Behind(goal, c)
    ensures Chunked(g, c[..|goal|]) && Behind(c[..|goal|], c) && Behind(goal, c[..|goal|])
  {}

  lemma GoalMoves(w: World, w': World, goal: Chunks)
    requires w.g.Ok() && GoalOk(w, goal) && w'.g == w.g && w'.synced == w.synced && Behind(goal, w'.chunks)
    requires forall t | t in w.ctl.threads && w.ctl.threads[t].Writing? ::
               t in w'.ctl.threads && w'.ctl.threads[t] == w.ctl.threads[t]
    ensures GoalOk(w', goal)
  {
    hide Chunked, Behind, OffOf;
    var t :| t in w.ctl.threads && w.ctl.threads[t].Writing? && w.ctl.threads[t].tmp == OffOf(w.g, goal);
    assert t in w'.ctl.threads && w'.ctl.threads[t].Writing?;
  }

  // ------------------------------------------------------- every step keeps it

  /** Bytes appended to a block make it differ from what its checksum was computed from. */
  lemma DriftAppend(g: Geometry, mem: seq<Block>, mem': seq<Block>, sums: seq<Block>, c: Chunks, c': Chunks, base: Chunks,
                    f: nat, e: nat)
    requires g.Ok() && Drifted(mem, sums, c, base, f, e) && Touched(g, mem, c, mem', c')
    requires MemoryHolds(g, sums, base) && Behind(base, c) && Behind(c, c')
    ensures Drifted(mem', sums, c', base, f, e)
  {
    forall j | f <= j < e ensures mem'[j] == sums[j] <==> c'[j] == base[j] {
      assert LiveBlock(g, mem'[j], c'[j]) && LiveBlock(g, sums[j], base[j]);
      assert base[j] <= c[j] <= c'[j];
    }
  }

  lemma SealAppend(w: World, w': World, c': Chunks)
    requires w.g.Ok() && w'.g == w.g && DeviceOk(w) && DeviceOk(w') && w.io.Sealed?
    requires SealOk(w, w.io.goal, w.io.f, w.io.e, w.io.sums, w.io.base, w.io.low)
    requires Touched(w.g, w.mem, w.chunks, w'.mem, c') && Behind(w.chunks, c')
    requires w' == w.(chunks := c', mem := w'.mem, ctl := w'.ctl)
    ensures SealOk(w', w.io.goal, w.io.f, w.io.e, w.io.sums, w.io.base, w.io.low)
  {
    hide Merged, Holds, Chunked, FirstBlock;
    DriftAppend(w.g, w.mem, w'.mem, w.io.sums, w.chunks, c', w.io.base, w.io.f, w.io.e);
    BehindTrans(w.io.base, w.chunks, c');
    hide Drifted, Behind, MemoryHolds;
    assert forall j | w.io.f <= j < w.io.e :: w'.mem[j].lsn == w.mem[j].lsn;
  }

  lemma AppendInv(w: World, w': World, x: Bytes)
    requires Inv(w) && Append(w, w', x)
    ensures Inv(w')
  {
    hide Merged, Holds, MemoryHolds, OffOf, AppendChunks, Sync.Inv, Chunked, Behind, FirstBlock;
    var c' := AppendChunks(w.g, w.chunks, x);
    Sync.AppendedInv(w.ctl, OffOf(w.g, c') - w.ctl.off);
    AppendOk(w.g, w.chunks, x);
    BehindItself(w.chunks);
    AppendBehind(w.g, w.chunks, w.chunks, x);
    AppendBehind(w.g, w.durable, w.chunks, x);
    assert DeviceOk(w');
    if !w.io.Quiet? {
      AppendBehind(w.g, w.io.goal, w.chunks, x);
      GoalMoves(w, w', w.io.goal);
    }
    if w.io.Sealed? { hide GoalOk, DeviceOk, SealOk, Touched; SealAppend(w, w', c'); }
  }

  /** What a call, a return or an entry leaves alone. */
  lemma ControlKeeps(s: Sync.State, s': Sync.State)
    requires Sync.Inv(s)
    requires (exists t: nat, off: nat, aligned: bool :: Sync.Call(s, s', t, off, aligned)) ||
             (exists t: nat :: Sync.Saved(s, s', t)) || (exists t: nat :: Sync.Enter(s, s', t))
    ensures Sync.Inv(s') && s'.off == s.off && s'.syncoff == s.syncoff && s'.blk == s.blk
    ensures forall t | t in s.threads && s.threads[t].Writing? :: t in s'.threads && s'.threads[t] == s.threads[t]
    ensures forall t | t in s'.threads && s'.threads[t].Writing? :: t in s.threads && s.threads[t].Writing?
  {
    hide Sync.Inv;
    if t: nat, off: nat, aligned: bool :| Sync.Call(s, s', t, off, aligned) {
      Sync.CallInv(s, s', t, off, aligned);
    } else if t: nat :| Sync.Saved(s, s', t) {
      Sync.SavedInv(s, s', t);
    } else {
      var t: nat :| Sync.Enter(s, s', t);
      Sync.EnterInv(s, s', t);
    }
  }

  lemma ControlInv(w: World, w': World)
    requires Inv(w) && Control(w, w')
    ensures Inv(w')
  {
    hide Merged, Holds, MemoryHolds, OffOf, Sync.Inv, Chunked, Behind, FirstBlock, Drifted, Freshly;
    ControlKeeps(w.ctl, w'.ctl);
    hide Sync.Call, Sync.Saved, Sync.Enter, Control;
    if !w.io.Quiet? { GoalMoves(w, w', w.io.goal); hide GoalOk; }
  }

  /** How far a sync goes: up to nso_off, or to the last block boundary. */
  lemma CaptureGoal(w: World, w': World, t: nat)
    requires w.g.Ok() && MemoryOk(w) && DeviceOk(w) && Capture(w, w', t)
    ensures Chunked(w.g, w'.io.goal) && Behind(w'.io.goal, w.chunks) && Behind(w.synced, w'.io.goal)
    ensures w'.ctl.threads[t].Writing? && w'.ctl.threads[t].tmp == OffOf(w.g, w'.io.goal)
    ensures w'.ctl.blk == w.ctl.blk && w'.ctl.off == w.ctl.off && w'.ctl.syncoff == w.ctl.syncoff
  {
    hide Merged, Holds, MemoryHolds, Sync.Inv, RoundUp;
    BehindTrans(w.synced, w.durable, w.chunks);
    BehindItself(w.chunks);
    if w'.ctl.threads[t].tmp != w.ctl.off {
      SplitOk(w.g, w.synced, w.chunks);
      OffParts(w.g, w.chunks[..|w.chunks| - 1]);
    }
  }

  lemma CaptureInv(w: World, w': World, t: nat)
    requires Inv(w) && Capture(w, w', t)
    ensures Inv(w')
  {
    hide Merged, Holds, MemoryHolds, OffOf, Sync.Inv, Chunked, Behind, Sync.Splits;
    CaptureGoal(w, w', t);
    Sync.CaptureInv(w.ctl, w'.ctl, t);
  }

  lemma StampSeal(w: World, w': World, f: nat, e: nat)
    requires Inv(w) && w.io.Captured? && StampBlocks(w, w', f, e)
    requires f == FirstBlock(w.g, w.synced) <= e == |w.io.goal|
    ensures w'.g == w.g && DeviceOk(w') && SealOk(w', w.io.goal, f, e, w'.mem, w.chunks, w.lsn)
    ensures MemoryHolds(w.g, w'.mem, w.chunks)
  {
    hide Merged, OffOf, Sync.Inv, Chunked, Holds, MemoryHolds, Behind, FirstBlock;
    StampedMemory(w.g, w.mem, w.chunks, f, e, w.lsn);
    HoldsMore(w.g, Merged(Device(w.parts)), w.durable, w.resetLsn, w.lsn, w'.lsn);
    BehindItself(w.chunks);
    BehindLength(w, w.io.goal);
    hide GoalOk;
  }

  lemma StampInv(w: World, w': World)
    requires Inv(w) && Stamp(w, w')
    ensures Inv(w')
  {
    hide Merged, OffOf, Sync.Inv, RoundUp, Chunked, Holds, MemoryHolds, Behind;
    var f, e := From(w.g, w.ctl.syncoff), UpTo(w.g, OffOf(w.g, w.io.goal));
    OffBlocks(w.g, w.synced);
    OffBlocks(w.g, w.io.goal);
    StampRange(w, w.io.goal);
    hide From, UpTo, FirstBlock;
    StampSeal(w, w', f, e);
    GoalMoves(w, w', w.io.goal);
    hide GoalOk, SealOk, DeviceOk;
  }

  lemma StampRange(w: World, goal: Chunks)
    requires w.g.Ok() && GoalOk(w, goal)
    ensures FirstBlock(w.g, w.synced) <= |goal|
  {}

  lemma BehindLength(w: World, goal: Chunks)
    requires w.g.Ok() && GoalOk(w, goal)
    ensures |goal| <= |w.chunks|
  {}

  /** The device after the write: blocks before `f` were final, the others are as memory has them. */
  lemma PutHolds(g: Geometry, d: seq<Block>, dur: Chunks, synced: Chunks, c: Chunks, mem: seq<Block>, e: nat, resetLsn: nat,
                 low: nat, lsn: nat)
    requires g.Ok() && Chunked(g, synced) && Behind(synced, dur) && Behind(dur, c) && Chunked(g, c) && |dur| == |synced|
    requires Holds(g, d, dur, resetLsn, low) && MemoryHolds(g, mem, c)
    requires FirstBlock(g, synced) <= e && |dur| <= e <= |c| && 0 < e && Freshly(mem, FirstBlock(g, synced), e, low, lsn)
    ensures |d| == |mem| && Holds(g, DeviceAfter(d, mem, FirstBlock(g, synced), e), c[..e], resetLsn, lsn)
  {
    hide Overwritten;
    var f := FirstBlock(g, synced);
    var d' := DeviceAfter(d, mem, f, e);
    forall j | 0 <= j < e ensures LiveBlock(g, d'[j], c[j]) && d'[j].lsn > resetLsn {
      if j < f {
        assert LiveBlock(g, d[j], dur[j]) && synced[j] <= dur[j] <= c[j];
      } else {
        assert LiveBlock(g, mem[j], c[j]);
      }
    }
    forall i, j | 0 <= i < j < e ensures d'[i].lsn < d'[j].lsn {
      if i < f { assert d[i].lsn <= low; }
    }
  }

  /** The cells written, seen as blocks. */
  lemma WrittenDevice(parts: seq<seq<Cell>>, p: nat, mem: seq<Block>, sums: seq<Block>, f: nat, e: nat)
    requires p < |parts| && f <= e <= |mem| == |sums| == |parts[p]|
    ensures Device(parts[p := WrittenCells(parts[p], mem, sums, f, e)]) ==
            Device(parts)[p := Overwritten(Device(parts)[p], mem, f, e)]
  {
    hide Overwritten;
    var part' := WrittenCells(parts[p], mem, sums, f, e);
    assert BlocksOf(part') == Overwritten(BlocksOf(parts[p]), mem, f, e);
  }

  lemma PutDevice(w: World, w': World)
    requires Inv(w) && Put(w, w')
    ensures w'.partition < |w'.parts| && (forall p | 0 <= p < |w'.parts| :: |w'.parts[p]| == w.g.blocks)
    ensures |w'.parts| == |w.parts| && Holds(w.g, Merged(Device(w'.parts)), w'.durable, w.resetLsn, w.lsn)
  {
    hide OffOf, Sync.Inv, Merged, Overwritten, WrittenCells, Chunked;
    var f, e, low := w.io.f, w.io.e, w.io.low;
    assert SealOk(w, w.io.goal, f, e, w.io.sums, w.io.base, low);
    var d := Merged(Device(w.parts));
    assert 0 < e by { GoalNonempty(w.g, w.ctl, w.io.goal); }
    PutHolds(w.g, d, w.durable, w.synced, w.chunks, w.mem, e, w.resetLsn, low, w.lsn);
    MergedWritten(w.g, Device(w.parts), w.partition, w.mem, f, e, low);
    WrittenDevice(w.parts, w.partition, w.mem, w.io.sums, f, e);
  }

  /** A sync in progress goes beyond the sync offset. */
  lemma GoalNonempty(g: Geometry, ctl: Sync.State, goal: Chunks)
    requires Sync.Inv(ctl) && exists t :: t in ctl.threads && ctl.threads[t].Writing? && ctl.threads[t].tmp == OffOf(g, goal)
    ensures goal != []
  {
    var t :| t in ctl.threads && ctl.threads[t].Writing? && ctl.threads[t].tmp == OffOf(g, goal);
    assert Sync.ThreadOk(ctl, ctl.threads[t]);
  }

  lemma PutInv(w: World, w': World)
    requires Inv(w) && Put(w, w')
    ensures Inv(w')
  {
    hide OffOf, Sync.Inv, Merged, Overwritten, WrittenCells, Holds, MemoryHolds, Drifted, Freshly, FirstBlock, Device, Chunked,
         Behind;
    PutDevice(w, w');
    var goal := w.io.goal;
    BehindCut(w.g, goal, w.chunks);
    BehindTrans(w.synced, goal, w'.durable);
    GoalMoves(w, w', goal);
    hide GoalOk;
    assert |goal| <= |w.chunks| && |w'.durable| == |goal| by { BehindLength(w, goal); }
  }

  lemma FinishThread(w: World, w': World, t: nat)
    requires Inv(w) && Finish(w, w', t)
    ensures w'.ctl.syncoff == OffOf(w.g, w.io.goal) && w'.ctl.off == w.ctl.off && w'.ctl.blk == w.ctl.blk
    ensures forall u | u in w'.ctl.threads :: !w'.ctl.threads[u].Writing?
  {
    hide Merged, Holds, MemoryHolds, OffOf, Chunked, Behind, Sync.ThreadOk;
    var u :| u in w.ctl.threads && w.ctl.threads[u].Writing? && w.ctl.threads[u].tmp == OffOf(w.g, w.io.goal);
    assert w.ctl.threads[u].Inside() && w.ctl.threads[t].Inside();
    assert u == t;
  }

  lemma FinishInv(w: World, w': World, t: nat)
    requires Inv(w) && Finish(w, w', t)
    ensures Inv(w')
  {
    FinishThread(w, w', t);
    hide Merged, Holds, MemoryHolds, OffOf, Chunked, Behind, Sync.Inv;
    Sync.FinishInv(w.ctl, w'.ctl, t);
  }

  lemma OthersInv(w: World, w': World, n: nat)
    requires Inv(w) && Others(w, w', n)
    ensures Inv(w')
  {
    hide Merged, Holds, MemoryHolds, OffOf, Chunked, Behind, Sync.Inv, Drifted, FirstBlock;
    HoldsMore(w.g, Merged(Device(w.parts)), w.durable, w.resetLsn, w.lsn, w'.lsn);
    if !w.io.Quiet? { GoalMoves(w, w', w.io.goal); hide GoalOk; }
  }

  lemma StepInv(w: World, w': World)
    requires Inv(w) && Step(w, w')
    ensures Inv(w')
  {
    assert w.g.Ok() && w.ctl.blk > 0 && Chunked(w.g, w.chunks);
    hide Inv, Append, Control, Capture, Stamp, Put, Finish, Others;
    if x: Bytes :| Append(w, w', x) {
      AppendInv(w, w', x);
    } else if Control(w, w') {
      ControlInv(w, w');
    } else if t: nat :| Capture(w, w', t) {
      CaptureInv(w, w', t);
    } else if Stamp(w, w') {
      StampInv(w, w');
    } else if Put(w, w') {
      PutInv(w, w');
    } else if t: nat :| Finish(w, w', t) {
      FinishInv(w, w', t);
    } else {
      var n: nat :| Others(w, w', n);
      OthersInv(w, w', n);
    }
  }

  // ------------------------------------------------------------------- whole runs

  ghost predicate Well(w: World) { w.g.Ok() && w.ctl.blk > 0 && Chunked(w.g, w.chunks) }

  /** A step, from a world in which steps make sense. */
  ghost predicate Goes(w: World, w': World) { Well(w) && Step(w, w') }

  ghost predicate Run(ws: seq<World>) {
    ws != [] && Start(ws[0]) && forall i | 0 <= i < |ws| - 1 :: Goes(ws[i], ws[i + 1])
  }

  lemma {:induction false} RunInv(ws: seq<World>, i: nat)
    requires Run(ws) && i < |ws|
    ensures Inv(ws[i])
  {
    hide Inv, Append, Control, Capture, Stamp, Put, Finish, Others, Start;
    if i == 0 {
      StartInv(ws[0]);
    } else {
      RunInv(ws, i - 1);
      assert Goes(ws[i - 1], ws[i]);
      StepInv(ws[i - 1], ws[i]);
    }
  }

  /** The control of every step is a step of the sync protocol, or none. */
  lemma StepControl(w: World, w': World)
    requires Well(w) && Step(w, w')
    ensures Sync.Step(w.ctl, w'.ctl) && w'.g == w.g
  {
    hide OffOf, AppendChunks, Touched, Chunked, RoundUp, StampBlocks, WrittenCells, Sync.Capture, Sync.Finish, Sync.Call,
         Sync.Saved, Sync.Enter;
    assert w'.ctl == w.ctl ==> w'.ctl == Sync.Appended(w.ctl, 0);
    if Stamp(w, w') { StampQuiet(w, w'); }
  }

  lemma StampQuiet(w: World, w': World)
    requires w.g.Ok() && Stamp(w, w')
    ensures w'.ctl == w.ctl && w'.g == w.g && w'.chunks == w.chunks && w'.parts == w.parts && w'.partition == w.partition
  {
    hide RoundUp, OffOf, From, UpTo;
  }

  function Controls(ws: seq<World>): (ss: seq<Sync.State>)
    ensures |ss| == |ws| && forall i | 0 <= i < |ws| :: ss[i] == ws[i].ctl
  {
    seq(|ws|, i requires 0 <= i < |ws| => ws[i].ctl)
  }

  lemma RunControl(ws: seq<World>)
    requires Run(ws)
    ensures Sync.Run(Controls(ws))
  {
    hide Append, Control, Capture, Stamp, Put, Finish, Others, Holds, MemoryHolds, Merged, Sync.Step;
    var ss := Controls(ws);
    forall i | 0 <= i < |ss| - 1 ensures ss[i].blk > 0 && Sync.Step(ss[i], ss[i + 1]) {
      assert Goes(ws[i], ws[i + 1]);
      StepControl(ws[i], ws[i + 1]);
    }
  }

  lemma StepGrows(w: World, w': World)
    requires Well(w) && Step(w, w')
    ensures Behind(w.chunks, w'.chunks) && w'.g == w.g
  {
    BehindItself(w.chunks);
    hide OffOf, AppendChunks, Touched, Chunked, RoundUp, StampBlocks, WrittenCells, Behind, Sync.Capture, Sync.Finish, Sync.Call,
         Sync.Saved, Sync.Enter;
    if x: Bytes :| Append(w, w', x) {
      AppendBehind(w.g, w.chunks, w.chunks, x);
    } else if Stamp(w, w') {
      StampQuiet(w, w');
    }
  }

  lemma {:induction false} ChunksGrow(ws: seq<World>, i: nat, j: nat)
    requires Run(ws) && i <= j < |ws|
    ensures Behind(ws[i].chunks, ws[j].chunks) && ws[j].g == ws[i].g
  {
    hide Append, Control, Capture, Stamp, Put, Finish, Others, Start, Behind, Chunked;
    BehindItself(ws[i].chunks);
    if i < j {
      ChunksGrow(ws, i, j - 1);
      assert Goes(ws[j - 1], ws[j]);
      StepGrows(ws[j - 1], ws[j]);
      BehindTrans(ws[i].chunks, ws[j - 1].chunks, ws[j].chunks);
    }
  }

  // ------------------------------------------------------------ the caller's bytes

  lemma {:induction false} BehindJoin(a: Chunks, c: Chunks)
    requires Behind(a, c)
    ensures Join(a) <= Join(c)
  {
    if a != [] {
      var k := |a| - 1;
      PrefixJoin(c, |a|);
      assert c[..|a|][..k] == c[..k] && a[..k] == c[..k];
      assert Join(c[..|a|]) == Join(c[..k]) + c[k] && Join(a) == Join(a[..k]) + a[k];
    }
  }

  lemma {:induction false} PrefixJoin(c: Chunks, n: nat)
    requires n <= |c|
    ensures Join(c[..n]) <= Join(c)
  {
    if n < |c| {
      PrefixJoin(c[..|c| - 1], n);
      assert c[..|c| - 1][..n] == c[..n];
    } else {
      assert c[..n] == c;
    }
  }

  /** Of two beginnings of one buffer, the one with the smaller offset has the fewer bytes. */
  lemma OffOrders(g: Geometry, a: Chunks, b: Chunks, c: Chunks)
    requires g.Ok() && Chunked(g, a) && Chunked(g, b) && Behind(a, c) && Behind(b, c) && OffOf(g, a) <= OffOf(g, b)
    ensures Join(a) <= Join(b)
  {
    BehindJoin(a, c);
    BehindJoin(b, c);
    OffLength(g, a, b);
    hide Join, Behind, Chunked;
    assert Join(a) == Join(c)[..|Join(a)|] && Join(b) == Join(c)[..|Join(b)|];
  }

  lemma OffLength(g: Geometry, a: Chunks, b: Chunks)
    requires g.Ok() && Chunked(g, a) && Chunked(g, b) && OffOf(g, a) <= OffOf(g, b)
    ensures |Join(a)| <= |Join(b)|
  {
    JoinLength(g, a);
    JoinLength(g, b);
    hide Join;
    if a != [] {
      if b == [] { MulAtLeast(0, |a| - 1, g.blk); }
      OffLengths(|a| - 1, |b| - 1, g.Payload(), g.meta, |a[|a| - 1]|, |b[|b| - 1]|);
    }
  }

  /** k full blocks and x bytes against m full blocks and y bytes, with and without headers. */
  lemma OffLengths(k: nat, m: nat, p: nat, meta: nat, x: nat, y: nat)
    requires x <= p && y <= p && 0 < meta && k * (meta + p) + x <= m * (meta + p) + y
    ensures k * p + x <= m * p + y
  {
    var blk := meta + p;
    assert (k + 1) * p == k * p + p && (m + 1) * blk == m * blk + blk;
    if k < m {
      MulAtLeast(k + 1, m, p);
    } else if m < k {
      MulAtLeast(m + 1, k, blk);
    }
  }

  /** Whatever others appended and synced meanwhile: once a sync that is not of the aligned kind has
      returned, the device holds the bytes that were appended up to its caller's offset, then and
      ever after. */
  lemma CallerDurable(ws: seq<World>, h: nat, i: nat, j: nat, t: nat)
    requires Run(ws) && h <= j && i <= j < |ws| && t in ws[i].ctl.threads
    requires ws[i].ctl.threads[t].Returned? && !ws[i].ctl.threads[t].aligned
    requires ws[h].g.Ok() && OffOf(ws[h].g, ws[h].chunks) <= ws[i].ctl.threads[t].orig
    ensures Join(ws[h].chunks) <= Join(ws[j].durable)
    ensures ws[j].g.Ok() && DeviceOk(ws[j])
  {
    hide Run, Join, Holds, Merged, MemoryHolds, Sync.Run, Behind, OffOf, Chunked, Step, IoOk;
    RunInv(ws, h);
    RunInv(ws, j);
    ChunksGrow(ws, h, j);
    RunControl(ws);
    Sync.SyncGuarantee(Controls(ws), i, j, t);
    var w := ws[j];
    BehindTrans(w.synced, w.durable, w.chunks);
    OffOrders(w.g, ws[h].chunks, w.synced, w.chunks);
    BehindJoin(w.synced, w.durable);
  }

  /** nvr_rebuild and nvr_read_buffer: check every checksum, merge the partitions, read. */
  method Rebuild(w: World) returns (accepted: bool, data: Bytes)
    requires Inv(w)
    ensures accepted <==> Sound(w.parts)
    ensures accepted ==> data == Join(w.durable)
  {
    hide Merged, Join, MemoryHolds, IoOk, Sync.Inv;
    data := [];
    for p := 0 to |w.parts|
      invariant forall q, j | 0 <= q < p && 0 <= j < |w.parts[q]| :: w.parts[q][j].block == w.parts[q][j].sum
    {
      for k := 0 to |w.parts[p]|
        invariant forall j | 0 <= j < k :: w.parts[p][j].block == w.parts[p][j].sum
      {
        if w.parts[p][k].block != w.parts[p][k].sum {
          return false, [];
        }
      }
    }
    var d := Merged(Device(w.parts));
    data := ReadBuffer(w.g, d, d[0].used, w.durable, w.resetLsn, w.lsn);
    accepted := true;
  }

  // --------------------------------------------------------- which partition is written

  ghost predicate PutAt(ws: seq<World>, i: nat) { i + 1 < |ws| && Put(ws[i], ws[i + 1]) }

  lemma {:induction false} KeptUntil(ws: seq<World>, i: nat, j: nat)
    requires Run(ws) && i <= j < |ws| && forall k: nat | i <= k < j :: !PutAt(ws, k)
    ensures ws[j].parts == ws[i].parts && ws[j].partition == ws[i].partition
  {
    hide Step, Start, Put;
    if i < j {
      KeptUntil(ws, i, j - 1);
      assert Goes(ws[j - 1], ws[j]) && !PutAt(ws, j - 1);
      OtherStepsKeepParts(ws[j - 1], ws[j]);
    }
  }

  /** With two partitions a sync never touches what the sync before it wrote. */
  lemma LastCopyKept(ws: seq<World>, i: nat, j: nat)
    requires Run(ws) && i < j && PutAt(ws, i) && PutAt(ws, j) && forall k: nat | i < k < j :: !PutAt(ws, k)
    requires |ws[i].parts| == 2
    ensures ws[i].partition < 2 == |ws[j + 1].parts| && ws[j].partition == 1 - ws[i].partition
    ensures ws[j + 1].parts[ws[i].partition] == ws[i + 1].parts[ws[i].partition]
  {
    hide Run, Start, WrittenCells;
    KeptUntil(ws, i + 1, j);
  }

  // ------------------------------------------------------------ every sync can return

  /** Steps left before the thread inside the sync publishes. */
  function IoLeft(io: Io): nat {
    match io
    case Quiet => 0
    case Captured(_) => 3
    case Sealed(_, _, _, _, _, _) => 2
    case Written(_) => 1
  }

  /** A step by which a sync comes nearer to its return. */
  ghost predicate Nearer(w: World, w': World, t: nat) {
    && Goes(w, w')
    && ((Sync.Further(w.ctl, w'.ctl) && t in w.ctl.threads && Sync.Rank(w'.ctl.threads[t]) < Sync.Rank(w.ctl.threads[t])) ||
        (w'.ctl == w.ctl && IoLeft(w'.io) < IoLeft(w.io)))
  }

  lemma CapturedMoves(w: World) returns (w': World)
    requires Inv(w) && w.io.Captured?
    ensures Goes(w, w') && w'.ctl == w.ctl && IoLeft(w'.io) < IoLeft(w.io)
  {
    hide Merged, OffOf, Sync.Inv, RoundUp, Chunked, Holds, Behind;
    var f, e := From(w.g, w.ctl.syncoff), UpTo(w.g, OffOf(w.g, w.io.goal));
    OffBlocks(w.g, w.synced);
    OffBlocks(w.g, w.io.goal);
    StampRange(w, w.io.goal);
    BehindLength(w, w.io.goal);
    hide From, UpTo, FirstBlock;
    var mem := Stamped(w.mem, f, e, w.lsn);
    w' := w.(mem := mem, lsn := w.lsn + (e - f), io := Sealed(w.io.goal, f, e, mem, w.chunks, w.lsn));
    assert StampBlocks(w, w', f, e);
    assert Stamp(w, w');
    hide Append, Control, Capture, Stamp, Put, Finish, Others;
  }

  lemma SealedSizes(w: World)
    requires Inv(w)
    ensures Well(w) && w.partition < |w.parts| && |w.mem| == |w.parts[w.partition]|
  {
    hide Merged, OffOf, Chunked, Holds, Behind, IoOk, Sync.ThreadOk;
  }

  lemma PutEnabled(w: World) returns (w': World)
    requires w.io.Sealed? && w.partition < |w.parts| && w.io.e <= |w.chunks|
    requires w.io.f <= w.io.e <= |w.mem| == |w.io.sums| == |w.parts[w.partition]|
    ensures Put(w, w') && w'.ctl == w.ctl && w'.io.Written?
  {
    hide WrittenCells;
    w' := w.(parts := w.parts[w.partition := WrittenCells(w.parts[w.partition], w.mem, w.io.sums, w.io.f, w.io.e)],
             partition := (w.partition + 1) % |w.parts|, durable := w.chunks[..w.io.e], io := Written(w.io.goal));
  }

  lemma SealedMoves(w: World) returns (w': World)
    requires Inv(w) && w.io.Sealed?
    ensures Goes(w, w') && w'.ctl == w.ctl && IoLeft(w'.io) < IoLeft(w.io)
  {
    hide Inv, Append, Control, Capture, Stamp, Put, Finish, Others, Chunked, Undisturbed;
    PutParts(w);
    SealedSizes(w);
    w' := PutEnabled(w);
  }

  lemma WrittenMoves(w: World) returns (w': World, t: nat)
    requires Inv(w) && w.io.Written?
    ensures Nearer(w, w', t)
  {
    hide Merged, OffOf, Chunked, Holds, MemoryHolds, Behind, Device, Sync.ThreadOk;
    t :| t in w.ctl.threads && w.ctl.threads[t].Writing? && w.ctl.threads[t].tmp == OffOf(w.g, w.io.goal);
    var x := w.ctl.threads[t];
    var ctl := w.ctl.(syncoff := x.tmp, insync := false,
                      threads := w.ctl.threads[t := if x.split == 1 && !x.aligned
                                                    then Sync.Checking(x.want, x.orig, x.aligned, 2)
                                                    else Sync.Returned(x.tmp, x.orig, x.aligned, x.split)]);
    assert Sync.Finish(w.ctl, ctl, t);
    w' := w.(ctl := ctl, synced := w.io.goal, io := Quiet);
    assert Finish(w, w', t);
    hide Append, Control, Capture, Stamp, Put, Finish, Others, Sync.Inv;
    Sync.OnwardDrops(w.ctl, ctl, t);
  }

  /** A thread about to read nso_off finds something to write. */
  lemma CaptureEnabled(w: World, ctl: Sync.State, t: nat) returns (w': World)
    requires Inv(w) && w.io.Quiet? && Sync.Capture(w.ctl, ctl, t)
    ensures Capture(w, w', t) && w'.ctl == ctl
  {
    assert Sync.ThreadOk(w.ctl, w.ctl.threads[t]);
    hide Merged, Chunked, Holds, MemoryHolds, Behind, Device, RoundUp, Sync.Splits;
    var whole := ctl.threads[t].tmp == w.ctl.off;
    assert w.chunks == [] ==> OffOf(w.g, w.chunks) == 0;
    w' := w.(ctl := ctl, io := Captured(if whole then w.chunks else w.chunks[..|w.chunks| - 1]));
  }

  lemma QuietMoves(w: World, u: nat) returns (w': World, t: nat)
    requires Inv(w) && w.io.Quiet? && u in w.ctl.threads && Sync.Busy(w.ctl.threads[u])
    ensures Nearer(w, w', t)
  {
    var ctl;
    ctl, t := Sync.SomeOnward(w.ctl, u);
    Sync.OnwardDrops(w.ctl, ctl, t);
    hide Merged, OffOf, Chunked, Holds, MemoryHolds, Behind, Device, Sync.Inv, Sync.Further, Sync.Rank, RoundUp, Sync.Splits;
    if Sync.Capture(w.ctl, ctl, t) {
      w' := CaptureEnabled(w, ctl, t);
      hide Append, Control, Capture, Stamp, Put, Finish, Others;
    } else {
      assert !w.ctl.threads[t].Writing?;
      w' := w.(ctl := ctl);
      assert Control(w, w');
      hide Append, Control, Capture, Stamp, Put, Finish, Others;
    }
  }

  /** As long as a sync is under way, some step brings one nearer to its return. */
  lemma SomeNearer(w: World, u: nat) returns (w': World, t: nat)
    requires Inv(w) && u in w.ctl.threads && Sync.Busy(w.ctl.threads[u])
    ensures Nearer(w, w', t)
  {
    hide Inv, Goes, Sync.Further, Sync.Rank, Sync.Busy;
    t := u;
    match w.io {
      case Quiet => w', t := QuietMoves(w, u);
      case Captured(_) => w' := CapturedMoves(w);
      case Sealed(_, _, _, _, _, _) => w' := SealedMoves(w);
      case Written(_) => w', t := WrittenMoves(w);
    }
  }

  ghost predicate Chain(ws: seq<World>) { ws != [] && forall i | 0 <= i < |ws| - 1 :: Goes(ws[i], ws[i + 1]) }

  ghost predicate Reaches(w: World, w': World) {
    exists ws: seq<World> :: Chain(ws) && ws[0] == w && ws[|ws| - 1] == w'
  }

  lemma ReachesSelf(w: World)
    ensures Reaches(w, w)
  {
    assert Chain([w]);
  }

  lemma ReachesVia(w: World, w1: World, w2: World)
    requires Goes(w, w1) && Reaches(w1, w2)
    ensures Reaches(w, w2)
  {
    hide Goes;
    var ws: seq<World> :| Chain(ws) && ws[0] == w1 && ws[|ws| - 1] == w2;
    var more := [w] + ws;
    forall i | 0 <= i < |more| - 1 ensures Goes(more[i], more[i + 1]) {
      if i > 0 { assert Goes(ws[i - 1], ws[i]); }
    }
    assert Chain(more) && more[0] == w && more[|more| - 1] == w2;
  }

  /** The same syncs, none further from its return. */
  ghost predicate Kept(s: Sync.State, s': Sync.State) {
    s'.threads.Keys == s.threads.Keys && forall u | u in s.threads :: s'.threads[u].Idle? <==> s.threads[u].Idle?
  }

  lemma NearerKeeps(w: World, w': World, t: nat, n: nat)
    requires Nearer(w, w', t) && forall u | u in w.ctl.threads :: u < n
    ensures Kept(w.ctl, w'.ctl) && Goes(w, w')
    ensures Sync.Work(w'.ctl.threads, n) < Sync.Work(w.ctl.threads, n) || (w'.ctl == w.ctl && IoLeft(w'.io) < IoLeft(w.io))
  {
    hide Goes, Sync.Rank, Sync.Work;
    if w'.ctl != w.ctl || IoLeft(w'.io) >= IoLeft(w.io) { Sync.WorkDrops(w.ctl.threads, w'.ctl.threads, n, t); }
  }

  lemma {:induction false} AllReturn(w: World, n: nat) returns (w': World)
    requires Inv(w) && forall t | t in w.ctl.threads :: t < n
    ensures Reaches(w, w') && Kept(w.ctl, w'.ctl) && forall t | t in w'.ctl.threads :: !Sync.Busy(w'.ctl.threads[t])
    decreases Sync.Work(w.ctl.threads, n), IoLeft(w.io)
  {
    hide Inv, Reaches, Nearer, Step, Well, Sync.Work, Sync.Busy;
    if u :| u in w.ctl.threads && Sync.Busy(w.ctl.threads[u]) {
      var w1, t := SomeNearer(w, u);
      NearerKeeps(w, w1, t, n);
      StepInv(w, w1);
      w' := AllReturn(w1, n);
      ReachesVia(w, w1, w');
    } else {
      w' := w;
      ReachesSelf(w);
    }
  }

  /** From every reachable world every sync that is under way can still return, through the device. */
  lemma SyncCanReturn(ws: seq<World>, i: nat, t: nat)
    requires Run(ws) && i < |ws| && t in ws[i].ctl.threads && Sync.Busy(ws[i].ctl.threads[t])
    ensures exists w' :: Reaches(ws[i], w') && t in w'.ctl.threads && w'.ctl.threads[t].Returned?
  {
    hide Inv, Reaches, Start, Goes;
    RunInv(ws, i);
    var n := Sync.Numbered(ws[i].ctl.threads.Keys);
    var w' := AllReturn(ws[i], n);
    assert !Sync.Busy(w'.ctl.threads[t]) && !w'.ctl.threads[t].Idle?;
  }

  // ---------------------------------------------------------------- torn blocks

  /** Between checksum and write nothing was appended, or the write ends with a whole block. */
  ghost predicate Undisturbed(w: World)
    requires w.g.Ok() && w.io.Sealed? && 0 < w.io.e <= |w.io.base|
  {
    |w.io.base[w.io.e - 1]| == w.g.Payload() || Join(w.chunks) == Join(w.io.base)
  }

  lemma UndisturbedIs(g: Geometry, base: Chunks, c: Chunks, e: nat)
    requires g.Ok() && Chunked(g, base) && Chunked(g, c) && Behind(base, c) && 0 < e <= |base|
    ensures base[e - 1] == c[e - 1] <==> |base[e - 1]| == g.Payload() || Join(c) == Join(base)
    ensures forall j | 0 <= j < e - 1 :: base[j] == c[j]
  {
    if base[e - 1] == c[e - 1] && |base[e - 1]| != g.Payload() {
      assert e == |base| && e == |c|;
      assert c == base;
    }
    if |base[e - 1]| == g.Payload() { assert base[e - 1] <= c[e - 1] && |c[e - 1]| <= g.Payload(); }
    if Join(c) == Join(base) && |base[e - 1]| != g.Payload() {
      assert e == |base|;
      JoinLength(g, base);
      JoinLength(g, c);
      SameLength(g, base, c);
    }
  }

  /** A buffer whose last block has room, and one that extends it by no bytes. */
  lemma SameLength(g: Geometry, base: Chunks, c: Chunks)
    requires g.Ok() && Chunked(g, base) && Chunked(g, c) && Behind(base, c) && base != []
    requires (|base| - 1) * g.Payload() + |base[|base| - 1]| == (|c| - 1) * g.Payload() + |c[|c| - 1]|
    requires |base[|base| - 1]| < g.Payload()
    ensures c[|base| - 1] == base[|base| - 1]
  {
    var k, m, p := |base| - 1, |c| - 1, g.Payload();
    assert (k + 1) * p == k * p + p;
    if k < m {
      MulAtLeast(k + 1, m, p);
    } else {
      assert k == m && |base[k]| == |c[k]|;
      assert base[k] <= c[k];
    }
  }

  lemma PutParts(w: World)
    requires Inv(w) && w.io.Sealed?
    ensures 0 < w.io.e <= |w.io.base| && w.io.e <= |w.chunks| && w.io.f < w.io.e <= |w.mem| == |w.io.sums|
    ensures (forall j | w.io.f <= j < w.io.e :: w.mem[j] == w.io.sums[j]) <==> Undisturbed(w)
  {
    hide Merged, Holds, OffOf, Sync.Inv, MemoryHolds, Join;
    GoalNonempty(w.g, w.ctl, w.io.goal);
    assert SealOk(w, w.io.goal, w.io.f, w.io.e, w.io.sums, w.io.base, w.io.low);
    UndisturbedIs(w.g, w.io.base, w.chunks, w.io.e);
    GoalBeyond(w, w.io.goal);
    hide Chunked, Behind, FirstBlock, Freshly;
    if Undisturbed(w) {
      forall j | w.io.f <= j < w.io.e ensures w.mem[j] == w.io.sums[j] {
        if j < w.io.e - 1 { assert w.io.base[j] == w.chunks[j]; }
      }
    } else {
      assert w.chunks[w.io.e - 1] != w.io.base[w.io.e - 1];
      assert w.mem[w.io.e - 1] != w.io.sums[w.io.e - 1];
    }
  }

  /** A sync in progress has a block to write. */
  lemma GoalBeyond(w: World, goal: Chunks)
    requires MemoryOk(w) && DeviceOk(w) && GoalOk(w, goal)
    ensures FirstBlock(w.g, w.synced) < |goal|
  {
    hide Merged, Holds, MemoryHolds;
    var t :| t in w.ctl.threads && w.ctl.threads[t].Writing? && w.ctl.threads[t].tmp == OffOf(w.g, goal);
    assert Sync.ThreadOk(w.ctl, w.ctl.threads[t]);
    if FirstBlock(w.g, w.synced) == |goal| { FullEnds(w.g, w.synced, goal); }
  }

  lemma FullEnds(g: Geometry, a: Chunks, b: Chunks)
    requires g.Ok() && Chunked(g, a) && Chunked(g, b) && Behind(a, b) && FirstBlock(g, a) == |b|
    ensures OffOf(g, b) <= OffOf(g, a)
  {
    if a != [] { assert |a| == |b| && a[|a| - 1] <= b[|b| - 1]; }
  }

  /** A write leaves the device acceptable exactly if it is undisturbed. */
  lemma PutSoundIff(w: World, w': World)
    requires Inv(w) && Put(w, w')
    ensures 0 < w.io.e <= |w.io.base|
    ensures Sound(w.parts) && Undisturbed(w) ==> Sound(w'.parts)
    ensures Sound(w'.parts) ==> Undisturbed(w)
  {
    hide Inv, Undisturbed;
    PutParts(w);
    InvGeometry(w);
    var p, f, e := w.partition, w.io.f, w.io.e;
    var part' := WrittenCells(w.parts[p], w.mem, w.io.sums, f, e);
    if Sound(w.parts) && Undisturbed(w) {
      forall q, j | 0 <= q < |w'.parts| && 0 <= j < |w'.parts[q]| ensures w'.parts[q][j].block == w'.parts[q][j].sum {
        if q != p { assert w'.parts[q] == w.parts[q]; }
      }
    }
    if Sound(w'.parts) {
      forall j | f <= j < e ensures w.mem[j] == w.io.sums[j] { assert w'.parts[p][j] == Cell(w.mem[j], w.io.sums[j]); }
    }
  }

  lemma OtherStepsKeepParts(w: World, w': World)
    requires Well(w) && Step(w, w') && !Put(w, w')
    ensures w'.parts == w.parts && w'.partition == w.partition
  {
    hide OffOf, AppendChunks, Touched, Chunked, RoundUp, StampBlocks, WrittenCells, Sync.Capture, Sync.Finish, Sync.Call,
         Sync.Saved, Sync.Enter, Put;
    if Stamp(w, w') { StampQuiet(w, w'); }
  }

  /** Every write of the run is undisturbed. */
  ghost predicate NoneDisturbed(ws: seq<World>) {
    forall i | 0 <= i < |ws| - 1 && Put(ws[i], ws[i + 1]) ::
      ws[i].g.Ok() && ws[i].io.Sealed? && 0 < ws[i].io.e <= |ws[i].io.base| && Undisturbed(ws[i])
  }

  lemma {:induction false} SoundSoFar(ws: seq<World>, i: nat)
    requires Run(ws) && NoneDisturbed(ws) && i < |ws|
    ensures Sound(ws[i].parts)
  {
    hide Append, Control, Capture, Stamp, Put, Finish, Others, Undisturbed, Sound, Holds, MemoryHolds, Merged, Inv;
    if i > 0 {
      var w, w' := ws[i - 1], ws[i];
      SoundSoFar(ws, i - 1);
      RunInv(ws, i - 1);
      assert Goes(w, w');
      if Put(w, w') {
        PutSoundIff(w, w');
      } else {
        OtherStepsKeepParts(w, w');
      }
    }
  }

  /** nvr_rebuild would accept the device at every moment of a run, if and only if no write that ends
      inside a block was disturbed by an append between its checksum and itself. */
  lemma AlwaysSoundIff(ws: seq<World>)
    requires Run(ws)
    ensures (forall i | 0 <= i < |ws| :: Sound(ws[i].parts)) <==> NoneDisturbed(ws)
  {
    hide Run, Put, Undisturbed, Sound, Inv, Step;
    if NoneDisturbed(ws) {
      forall i | 0 <= i < |ws| ensures Sound(ws[i].parts) { SoundSoFar(ws, i); }
    } else if forall i | 0 <= i < |ws| :: Sound(ws[i].parts) {
      forall i | 0 <= i < |ws| - 1 && Put(ws[i], ws[i + 1])
        ensures ws[i].g.Ok() && ws[i].io.Sealed? && 0 < ws[i].io.e <= |ws[i].io.base| && Undisturbed(ws[i])
      {
        RunInv(ws, i);
        InvGeometry(ws[i]);
        PutSealed(ws[i], ws[i + 1]);
        PutSoundIff(ws[i], ws[i + 1]);
      }
    }
  }

  lemma PutSealed(w: World, w': World)
    requires Put(w, w')
    ensures w.io.Sealed?
  {}

  lemma InvGeometry(w: World)
    requires Inv(w)
    ensures w.g.Ok()
  {}

  /** Two blocks of four bytes, one of them header; one partition. */
  function Small(): Geometry { Geometry(4, 1, 2, 8) }

  function Control0(off: nat, syncoff: nat, insync: bool, x: Sync.Thread): Sync.State {
    Sync.State(4, off, syncoff, insync, map[0 := x])
  }

  /** Thread 0 syncs byte 7 while somebody appends byte 8: a world of that run. */
  function At(ctl: Sync.State, first: Block, cell: Cell, lsn: nat, io: Io, c: Chunks, d: Chunks, y: Chunks): World {
    var blank := Block(0, 0, [0, 0, 0]);
    World(Small(), ctl, [first, blank], [[cell, Cell(blank, blank)]], 0, lsn, io, c, d, y, 0)
  }

  function Torn(): seq<World> {
    var blank, seven, stamped := Block(0, 0, [0, 0, 0]), Block(0, 2, [7, 0, 0]), Block(1, 2, [7, 0, 0]);
    var eight, clean := Block(1, 3, [7, 8, 0]), Cell(Block(0, 0, [0, 0, 0]), Block(0, 0, [0, 0, 0]));
    var seal := Sealed([[7]], 0, 1, [stamped, blank], [[7]], 0);
    var writing := Sync.Writing(2, 2, false, 0, 2);
    [ At(Control0(0, 0, false, Sync.Idle), blank, clean, 0, Quiet, [], [], []),
      At(Control0(2, 0, false, Sync.Idle), seven, clean, 0, Quiet, [[7]], [], []),
      At(Control0(2, 0, false, Sync.Checking(2, 2, false, 0)), seven, clean, 0, Quiet, [[7]], [], []),
      At(Control0(2, 0, true, Sync.Syncing(2, 2, false, 0)), seven, clean, 0, Quiet, [[7]], [], []),
      At(Control0(2, 0, true, writing), seven, clean, 0, Captured([[7]]), [[7]], [], []),
      At(Control0(2, 0, true, writing), stamped, clean, 1, seal, [[7]], [], []),
      At(Control0(3, 0, true, writing), eight, clean, 1, seal, [[7, 8]], [], []),
      At(Control0(3, 0, true, writing), eight, Cell(eight, stamped), 1, Written([[7]]), [[7, 8]], [[7, 8]], []),
      At(Control0(3, 2, false, Sync.Returned(2, 2, false, 0)), eight, Cell(eight, stamped), 1, Quiet, [[7, 8]], [[7, 8]], [[7]]) ]
  }

  lemma TornStart()
    ensures Start(Torn()[0])
  {
    var w := Torn()[0];
    assert Merged(Device(w.parts)) == Device(w.parts)[0] == BlocksOf(w.parts[0]);
    assert forall j | 0 <= j < 2 :: w.parts[0][j] == Cell(Block(0, 0, [0, 0, 0]), Block(0, 0, [0, 0, 0]));
  }

  lemma OneByte(g: Geometry, last: Bytes, b: byte)
    requires g.Ok() && |last| < g.Payload()
    ensures Filled(g, [last], [b]) == [last + [b]]
  {
    assert [last][0 := last + [b]] == [last + [b]];
  }

  lemma AppendGoes(w: World, w': World, x: Bytes, c: Chunks)
    requires Well(w) && c == AppendChunks(w.g, w.chunks, x) && w.ctl.off <= OffOf(w.g, c) <= w.g.limit
    requires Touched(w.g, w.mem, w.chunks, w'.mem, c)
    requires w' == w.(chunks := c, mem := w'.mem, ctl := Sync.Appended(w.ctl, OffOf(w.g, c) - w.ctl.off))
    ensures Goes(w, w')
  {
    hide Control, Capture, Stamp, Put, Finish, Others, Touched, AppendChunks, OffOf;
    assert Append(w, w', x);
  }

  lemma TornFirst()
    ensures Goes(Torn()[0], Torn()[1])
  {
    var g, none: Bytes := Small(), [];
    OneByte(g, none, 7);
    assert Opened(g, []) == [none] && none + [7] == [7] && [7, 0, 0][..1] == [7];
    var w, w' := Torn()[0], Torn()[1];
    assert LiveBlock(g, w'.mem[0], [7]);
    assert AppendChunks(g, [], [7]) == [[7]];
    hide AppendChunks;
    AppendGoes(w, w', [7], [[7]]);
  }

  lemma TornSecond()
    ensures Goes(Torn()[5], Torn()[6])
  {
    var g := Small();
    OneByte(g, [7], 8);
    assert Opened(g, [[7]]) == [[7]] && [7] + [8] == [7, 8] && [7, 8, 0][..2] == [7, 8];
    var w, w' := Torn()[5], Torn()[6];
    assert LiveBlock(g, w'.mem[0], [7, 8]);
    assert AppendChunks(g, [[7]], [8]) == [[7, 8]];
    hide AppendChunks;
    AppendGoes(w, w', [8], [[7, 8]]);
  }

  lemma TornControl()
    ensures Goes(Torn()[1], Torn()[2]) && Goes(Torn()[2], Torn()[3])
  {
    hide Append, Capture, Stamp, Put, Finish, Others;
    assert Sync.Call(Torn()[1].ctl, Torn()[2].ctl, 0, 2, false);
    assert Sync.Enter(Torn()[2].ctl, Torn()[3].ctl, 0);
    assert Control(Torn()[1], Torn()[2]) && Control(Torn()[2], Torn()[3]);
  }

  lemma TornCapture()
    ensures Goes(Torn()[3], Torn()[4])
  {
    hide Append, Control, Stamp, Put, Finish, Others;
    assert !Sync.Splits(4, 0, 2);
    assert Sync.Capture(Torn()[3].ctl, Torn()[4].ctl, 0);
    assert Capture(Torn()[3], Torn()[4], 0);
  }

  lemma TornStamp()
    ensures Goes(Torn()[4], Torn()[5])
  {
    hide Append, Control, Capture, Put, Finish, Others;
    var g := Small();
    assert OffOf(g, [[7]]) == 2 && RoundUp(2, 4) == 4 && UpTo(g, 2) == 1 && From(g, 0) == 0;
    assert Stamped(Torn()[4].mem, 0, 1, 0) == Torn()[5].mem;
    assert Stamp(Torn()[4], Torn()[5]);
  }

  lemma TornPut()
    ensures Goes(Torn()[6], Torn()[7]) && Goes(Torn()[7], Torn()[8])
  {
    hide Append, Control, Capture, Stamp, Others;
    var w, w' := Torn()[6], Torn()[7];
    assert WrittenCells(w.parts[0], w.mem, w.io.sums, 0, 1) == w'.parts[0];
    assert w.parts[0 := w'.parts[0]] == w'.parts && w.chunks[..1] == w'.durable;
    assert Put(w, w') && Finish(Torn()[7], Torn()[8], 0);
  }

  lemma TornEnd()
    ensures |Torn()| == 9 && Torn()[8].ctl.threads == map[0 := Sync.Returned(2, 2, false, 0)] && !Sound(Torn()[8].parts)
  {
    var parts: seq<seq<Cell>> := Torn()[8].parts;
    assert parts[0][0].block != parts[0][0].sum;
  }

  /** A sync returns to its caller, and a crash then leaves a device that nvr_rebuild refuses. */
  lemma TornBlock()
    ensures Run(Torn()) && Torn()[8].ctl.threads == map[0 := Sync.Returned(2, 2, false, 0)] && !Sound(Torn()[8].parts)
  {
    hide Torn, Sound, Start, Goes;
    TornEnd();
    TornStart();
    TornFirst();
    TornControl();
    TornCapture();
    TornStamp();
    TornSecond();
    TornPut();
  }
}
