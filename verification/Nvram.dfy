/** The NVRAM buffer service: bytes appended to a buffer are laid out in fixed-size blocks,
    each with a header (LSN and used length), and synced to one or two device partitions.

    A reset rewrites only block 0, so blocks of an earlier use stay on the device and must
    be told from live ones by their LSNs.

    A write that is refused for lack of space returns with the buffer's mutex held, so the next
    write or reset of that buffer waits for good; only a restart frees it. */
module Nvram {
  import opened Keys

  type Bytes = seq<byte>

  /** Block size, header size, blocks in a buffer, and bytes usable (nvr_data_in_obj). */
  datatype Geometry = Geometry(blk: nat, meta: nat, blocks: nat, limit: nat) {
    predicate Ok() { 0 < meta < blk && 0 < blocks && limit <= blocks * blk }
    /** Data bytes in a block. */
    function Payload(): nat
      requires Ok()
    {
      blk - meta
    }
  }

  /** A block; `used` is nsb_off, counting the header, and 0 in a reset block. */
  datatype Block = Block(lsn: nat, used: nat, payload: Bytes)

  // ----------------------------------------------------------- layout in chunks

  /** The data of the live blocks: all full but the last. */
  type Chunks = seq<Bytes>

  predicate Chunked(g: Geometry, c: Chunks)
    requires g.Ok()
  {
    (forall i | 0 <= i < |c| - 1 :: |c[i]| == g.Payload()) && (c != [] ==> |c[|c| - 1]| <= g.Payload())
  }

  function Join(c: Chunks): Bytes {
    if c == [] then [] else Join(c[..|c| - 1]) + c[|c| - 1]
  }

  /** The offset nso_off that goes with the chunks. */
  function OffOf(g: Geometry, c: Chunks): nat {
    if c == [] then 0 else (|c| - 1) * g.blk + g.meta + |c[|c| - 1]|
  }

  /** A block is opened when there is none or the last is full. */
  function Opened(g: Geometry, c: Chunks): Chunks
    requires g.Ok()
  {
    if c == [] || |c[|c| - 1]| == g.Payload() then c + [[]] else c
  }

  /** Copy bytes block by block, opening a block whenever the last fills up with more to come. */
  function Filled(g: Geometry, c: Chunks, data: Bytes): Chunks
    requires g.Ok() && c != [] && |c[|c| - 1]| <= g.Payload()
    requires |c[|c| - 1]| == g.Payload() ==> data == []
    decreases |data|
  {
    var last := c[|c| - 1];
    var room := g.Payload() - |last|;
    if |data| <= room then c[|c| - 1 := last + data]
    else Filled(g, c[|c| - 1 := last + data[..room]] + [[]], data[room..])
  }

  function AppendChunks(g: Geometry, c: Chunks, data: Bytes): Chunks
    requires g.Ok() && Chunked(g, c)
  {
    Filled(g, Opened(g, c), data)
  }

  lemma JoinSnoc(c: Chunks, x: Bytes)
    ensures Join(c + [x]) == Join(c) + x
  {
    assert (c + [x])[..|c|] == c;
  }

  lemma JoinLast(c: Chunks, x: Bytes)
    requires c != []
    ensures Join(c[|c| - 1 := c[|c| - 1] + x]) == Join(c) + x
  {
    assert c[|c| - 1 := c[|c| - 1] + x][..|c| - 1] == c[..|c| - 1];
  }

  lemma {:induction false} FilledJoin(g: Geometry, c: Chunks, data: Bytes)
    requires g.Ok() && c != [] && |c[|c| - 1]| <= g.Payload()
    requires |c[|c| - 1]| == g.Payload() ==> data == []
    ensures Join(Filled(g, c, data)) == Join(c) + data
    decreases |data|
  {
    hide Join;
    var last := c[|c| - 1];
    var room := g.Payload() - |last|;
    if |data| <= room {
      JoinLast(c, data);
    } else {
      var c1 := c[|c| - 1 := last + data[..room]];
      JoinLast(c, data[..room]);
      JoinSnoc(c1, []);
      FilledJoin(g, c1 + [[]], data[room..]);
      assert (Join(c) + data[..room]) + [] + data[room..] == Join(c) + data;
    }
  }

  lemma {:induction false} FilledShape(g: Geometry, c: Chunks, data: Bytes)
    requires g.Ok() && Chunked(g, c) && c != []
    requires |c[|c| - 1]| == g.Payload() ==> data == []
    ensures Chunked(g, Filled(g, c, data))
    ensures |c| <= |Filled(g, c, data)| && Filled(g, c, data)[..|c| - 1] == c[..|c| - 1]
    ensures data != [] ==> Filled(g, c, data)[|Filled(g, c, data)| - 1] != []
    decreases |data|
  {
    var last := c[|c| - 1];
    var room := g.Payload() - |last|;
    if |data| > room {
      var c1 := c[|c| - 1 := last + data[..room]];
      FilledShape(g, c1 + [[]], data[room..]);
      var f := Filled(g, c, data);
      assert f == Filled(g, c1 + [[]], data[room..]);
      assert f[..|c| - 1] == f[..|c1|][..|c| - 1];
    }
  }

  /** Appending keeps the bytes in order and the blocks well filled, however they are split. */
  lemma FilledOk(g: Geometry, c: Chunks, data: Bytes)
    requires g.Ok() && Chunked(g, c) && c != []
    requires |c[|c| - 1]| == g.Payload() ==> data == []
    ensures Chunked(g, Filled(g, c, data)) && Join(Filled(g, c, data)) == Join(c) + data
    ensures |c| <= |Filled(g, c, data)| && Filled(g, c, data)[..|c| - 1] == c[..|c| - 1]
    ensures data != [] ==> Filled(g, c, data)[|Filled(g, c, data)| - 1] != []
  {
    hide Filled, Join;
    FilledShape(g, c, data);
    FilledJoin(g, c, data);
  }

  lemma AppendOk(g: Geometry, c: Chunks, data: Bytes)
    requires g.Ok() && Chunked(g, c)
    ensures Chunked(g, AppendChunks(g, c, data)) && Join(AppendChunks(g, c, data)) == Join(c) + data
  {
    hide Filled, Join;
    JoinSnoc(c, []);
    FilledOk(g, Opened(g, c), data);
    assert Join(c) + [] == Join(c);
  }

  // --------------------------------------------------------------- arithmetic

  lemma DivMod(k: nat, b: nat, c: nat)
    requires 0 < b && c < b
    ensures (k * b + c) / b == k && (k * b + c) % b == c
  {
    var n := k * b + c;
    var q, r := n / b, n % b;
    assert n == q * b + r;
    if q < k { MulGe(k - q, b); } else if q > k { MulGe(q - k, b); }
  }

  lemma MulGe(a: nat, b: nat)
    requires a > 0
    ensures a * b >= b
  {}

  lemma MulLess(a: nat, b: nat, c: nat)
    requires a * c < b * c
    ensures a < b
  {
  }

  /** Where in its block the offset of the chunks falls. */
  lemma OffParts(g: Geometry, c: Chunks)
    requires g.Ok() && Chunked(g, c) && c != []
    ensures var last := c[|c| - 1];
            if |last| == g.Payload()
            then OffOf(g, c) == |c| * g.blk && OffOf(g, c) % g.blk == 0 && OffOf(g, c) / g.blk == |c|
            else OffOf(g, c) % g.blk == g.meta + |last| && OffOf(g, c) / g.blk == |c| - 1
  {
    var last := c[|c| - 1];
    if |last| == g.Payload() {
      assert |c| * g.blk == (|c| - 1) * g.blk + g.blk;
      DivMod(|c|, g.blk, 0);
    } else {
      DivMod(|c| - 1, g.blk, g.meta + |last|);
    }
  }

  lemma {:induction false} JoinLength(g: Geometry, c: Chunks)
    requires g.Ok() && Chunked(g, c)
    ensures c != [] ==> |Join(c)| == (|c| - 1) * g.Payload() + |c[|c| - 1]|
    ensures c == [] ==> Join(c) == []
  {
    if |c| > 1 {
      var c' := c[..|c| - 1];
      JoinLength(g, c');
      assert c'[|c'| - 1] == c[|c| - 2];
      assert (|c| - 1) * g.Payload() == (|c| - 2) * g.Payload() + g.Payload();
    }
  }

  /** Bytes appended plus one header per block: this is nso_off, however the bytes were split. */
  lemma OffIsBytesAndHeaders(g: Geometry, c: Chunks)
    requires g.Ok() && Chunked(g, c)
    ensures OffOf(g, c) == |Join(c)| + g.meta * |c|
  {
    JoinLength(g, c);
    if c != [] {
      var k := |c| - 1;
      assert k * g.blk == k * g.Payload() + k * g.meta;
      assert g.meta * |c| == k * g.meta + g.meta;
    }
  }

  /** Blocks for n bytes, rounding up. */
  function CeilDiv(n: nat, p: nat): nat
    requires p > 0
  {
    (n + p - 1) / p
  }

  /** The number of blocks is the least that holds the bytes, unless an empty append opened one. */
  lemma BlockCount(g: Geometry, c: Chunks)
    requires g.Ok() && Chunked(g, c) && (c != [] ==> c[|c| - 1] != [])
    ensures |c| == CeilDiv(|Join(c)|, g.Payload())
  {
    var p := g.Payload();
    JoinLength(g, c);
    if c == [] {
      DivMod(0, p, p - 1);
    } else {
      var k, r := |c| - 1, |c[|c| - 1]|;
      assert |Join(c)| + p - 1 == (k + 1) * p + (r - 1);
      DivMod(k + 1, p, r - 1);
    }
  }

  lemma OffFormula(g: Geometry, c: Chunks)
    requires g.Ok() && Chunked(g, c) && (c != [] ==> c[|c| - 1] != [])
    ensures OffOf(g, c) == |Join(c)| + g.meta * CeilDiv(|Join(c)|, g.Payload())
  {
    OffIsBytesAndHeaders(g, c);
    BlockCount(g, c);
  }

  // ------------------------------------------------- nvr_space_available_in_obj

  /** The space check's walk over offsets. */
  function Advanced(g: Geometry, off: nat, count: nat): nat
    requires g.Ok()
    decreases count
  {
    var room := g.blk - off % g.blk;
    if count <= room then off + count else Advanced(g, off + room + g.meta, count - room)
  }

  /** nvr_space_available_in_obj: whether `count` more bytes fit. */
  method SpaceAvailable(g: Geometry, off0: nat, count0: nat) returns (yes: bool)
    requires g.Ok()
    ensures yes <==> Advanced(g, if off0 % g.blk == 0 then off0 + g.meta else off0, count0) <= g.limit
  {
    var off: nat, count: nat := off0, count0;
    if off % g.blk == 0 {
      off := off + g.meta;
    }
    ghost var goal := Advanced(g, off, count);
    while count > 0
      invariant Advanced(g, off, count) == goal
      decreases count
    {
      var room := g.blk - off % g.blk;
      var tocpy := if count < room then count else room;
      if count == tocpy {
        AdvancedEnd(g, off, count);
      }
      count, off := count - tocpy, off + tocpy;
      if count > 0 {
        off := off + g.meta;
      }
    }
    AdvancedNone(g, off);
    yes := off <= g.limit;
  }

  lemma AdvancedNone(g: Geometry, off: nat)
    requires g.Ok()
    ensures Advanced(g, off, 0) == off
  {}

  lemma AdvancedEnd(g: Geometry, off: nat, count: nat)
    requires g.Ok() && count <= g.blk - off % g.blk
    ensures Advanced(g, off, count) == off + count && Advanced(g, off + count, 0) == off + count
  {
    AdvancedNone(g, off + count);
  }

  /** The walk predicts the offset that the copy will reach. */
  lemma {:induction false} AdvancedIsFilled(g: Geometry, c: Chunks, data: Bytes)
    requires g.Ok() && Chunked(g, c) && c != [] && |c[|c| - 1]| < g.Payload()
    ensures Advanced(g, OffOf(g, c), |data|) == OffOf(g, Filled(g, c, data))
    decreases |data|
  {
    var last := c[|c| - 1];
    var room := g.Payload() - |last|;
    OffParts(g, c);
    if |data| > room {
      var c1 := c[|c| - 1 := last + data[..room]];
      assert OffOf(g, c1 + [[]]) == OffOf(g, c) + room + g.meta by {
        assert |c1| * g.blk == (|c| - 1) * g.blk + g.blk;
      }
      AdvancedIsFilled(g, c1 + [[]], data[room..]);
    }
  }

  /** The space check says yes exactly when the append will stay within the limit. */
  lemma SpaceCheckExact(g: Geometry, c: Chunks, data: Bytes)
    requires g.Ok() && Chunked(g, c)
    ensures var off := OffOf(g, c);
            Advanced(g, if off % g.blk == 0 then off + g.meta else off, |data|) == OffOf(g, AppendChunks(g, c, data))
  {
    var off, c1 := OffOf(g, c), Opened(g, c);
    if c != [] { OffParts(g, c); } else { DivMod(0, g.blk, 0); }
    assert OffOf(g, c1) == if off % g.blk == 0 then off + g.meta else off;
    AdvancedIsFilled(g, c1, data);
  }

  /** With limit = size - reserve and capacity = limit - blocks * header, no append is refused
      while the bytes in the buffer stay within the capacity. */
  lemma CapacityFits(g: Geometry, c: Chunks)
    requires g.Ok() && Chunked(g, c) && (c != [] ==> c[|c| - 1] != [])
    requires |Join(c)| + g.blocks * g.meta <= g.limit
    ensures OffOf(g, c) <= g.limit && |c| <= g.blocks
  {
    hide Join, OffOf;
    OffIsBytesAndHeaders(g, c);
    JoinLength(g, c);
    if c != [] {
      var k, p := |c| - 1, g.Payload();
      Distribute(g.blocks, p, g.meta);
      assert k * p < g.blocks * p;
      MulLess(k, g.blocks, p);
    }
    MulMonotone(g.meta, |c|, g.blocks);
  }

  lemma Distribute(n: nat, p: nat, m: nat)
    ensures n * (p + m) == n * p + n * m
  {}

  lemma MulMonotone(m: nat, a: nat, b: nat)
    requires a <= b
    ensures m * a <= b * m
  {}

  // ------------------------------------------------------------ reading a device

  /** nvr_rebuild with two partitions: of each block the version with the larger LSN. */
  function Newer(a: Block, b: Block): Block { if b.lsn > a.lsn then b else a }

  function Merged(parts: seq<seq<Block>>): (d: seq<Block>)
    requires 1 <= |parts| <= 2 && forall p | 0 <= p < |parts| :: |parts[p]| == |parts[0]|
    ensures |d| == |parts[0]|
    ensures forall j | 0 <= j < |d| :: d[j] == if |parts| == 1 then parts[0][j] else Newer(parts[0][j], parts[1][j])
  {
    if |parts| == 1 then parts[0] else MergedTwo(parts[0], parts[1])
  }

  function MergedTwo(a: seq<Block>, b: seq<Block>): (d: seq<Block>)
    requires |a| == |b|
    ensures |d| == |a| && forall j | 0 <= j < |d| :: d[j] == Newer(a[j], b[j])
  {
    if a == [] then []
    else MergedTwo(a[..|a| - 1], b[..|a| - 1]) + [Newer(a[|a| - 1], b[|a| - 1])]
  }

  /** A device that holds the chunks, behind stale blocks of earlier uses. */
  ghost predicate Holds(g: Geometry, d: seq<Block>, c: Chunks, resetLsn: nat, lsn: nat)
    requires g.Ok()
  {
    && |d| == g.blocks && |c| <= g.blocks && resetLsn <= lsn
    && (forall j | 0 <= j < |d| :: |d[j].payload| == g.Payload() && d[j].lsn <= lsn)
    && (forall j | 0 <= j < |c| :: LiveBlock(g, d[j], c[j]) && d[j].lsn > resetLsn)
    && (forall i, j | 0 <= i < j < |c| :: d[i].lsn < d[j].lsn)
    && (forall j | |c| <= j < |d| :: d[j].lsn <= resetLsn)
    && (c == [] ==> d[0].used == 0)
  }

  ghost predicate LiveBlock(g: Geometry, b: Block, x: Bytes) {
    b.used == g.meta + |x| && |x| <= |b.payload| && b.payload[..|x|] == x
  }

  /** nvr_read_buffer: blocks in order while they are in use and their LSNs increase.
      `off` is nso_off as nvr_rebuild left it. */
  method ReadBuffer(g: Geometry, d: seq<Block>, off: nat, ghost c: Chunks, ghost resetLsn: nat, ghost lsn: nat) returns (data: Bytes)
    requires g.Ok() && Holds(g, d, c, resetLsn, lsn) && (off == 0 <==> d[0].used == 0)
    ensures data == Join(c)
  {
    data := [];
    if off == 0 {
      return;
    }
    var last := 0;
    var i := 0;
    assert c[..0] == [];
    while i < g.blocks
      invariant 0 <= i <= |c| && data == Join(c[..i])
      invariant last == if i == 0 then 0 else d[i - 1].lsn
    {
      if d[i].used == 0 || d[i].lsn <= last {
        break;
      }
      assert c[..i + 1][..i] == c[..i];
      data := data + d[i].payload[..d[i].used - g.meta];
      last := d[i].lsn;
      i := i + 1;
    }
    assert c[..|c|] == c;
  }

  // ------------------------------------------------------------- one buffer

  /** Memory holds the chunks. */
  ghost predicate MemoryHolds(g: Geometry, mem: seq<Block>, c: Chunks)
    requires g.Ok()
  {
    && |mem| == g.blocks && |c| <= g.blocks
    && (forall j | 0 <= j < |mem| :: |mem[j].payload| == g.Payload())
    && forall j | 0 <= j < |c| :: LiveBlock(g, mem[j], c[j])
  }

  /** What is synced is what was appended, up to a point in the last synced block. */
  ghost predicate Behind(d: Chunks, c: Chunks) {
    && |d| <= |c|
    && (forall j | 0 <= j < |d| - 1 :: d[j] == c[j])
    && (d != [] ==> d[|d| - 1] <= c[|d| - 1])
  }

  lemma BlocksOf(g: Geometry, c: Chunks)
    requires g.Ok() && Chunked(g, c) && OffOf(g, c) <= g.limit
    ensures |c| <= g.blocks
  {
    if c != [] {
      MulLess(|c| - 1, g.blocks, g.blk);
    }
  }

  /** How a call on a buffer ends: done, refused with -1, or never. */
  datatype Outcome = Done | Refused | Stuck

  class Buffer {
    const g: Geometry
    /** nso_data, nso_off and nso_syncoff. */
    const data: array<Block>
    var off: nat
    var syncoff: nat
    /** Whether a call has returned with nso_mutex held. */
    var locked: bool
    /** The device partitions, the one to write next, and the LSN counter. */
    var parts: seq<seq<Block>>
    var partition: nat
    var lsn: nat
    /** Bytes appended since the reset, and bytes synced, in blocks. */
    ghost var chunks: Chunks
    ghost var durable: Chunks
    ghost var resetLsn: nat

    ghost predicate Valid()
      reads this, data
    {
      && g.Ok() && data.Length == g.blocks
      && 1 <= |parts| <= 2 && partition < |parts| && (forall p | 0 <= p < |parts| :: |parts[p]| == g.blocks)
      && Chunked(g, chunks) && Chunked(g, durable) && Behind(durable, chunks)
      && off == OffOf(g, chunks) && syncoff == OffOf(g, durable)
      && MemoryHolds(g, data[..], chunks)
      && Holds(g, Merged(parts), durable, resetLsn, lsn)
    }

    /** The device holds what was synced, whatever has become of memory. */
    ghost predicate DeviceOk()
      reads this, data
    {
      && g.Ok() && data.Length == g.blocks && (forall j | 0 <= j < data.Length :: |data[j].payload| == g.Payload())
      && 1 <= |parts| <= 2 && partition < |parts| && (forall p | 0 <= p < |parts| :: |parts[p]| == g.blocks)
      && Holds(g, Merged(parts), durable, resetLsn, lsn)
    }

    /** Memory matters only while calls can get at it. */
    ghost predicate Ready()
      reads this, data
    {
      DeviceOk() && (!locked ==> Valid())
    }

    /** What nvr_reset_buffer relies on: shapes, and an LSN counter ahead of the device. */
    ghost predicate Resettable()
      reads this, data
    {
      && g.Ok() && data.Length == g.blocks && (forall j | 0 <= j < data.Length :: |data[j].payload| == g.Payload())
      && 1 <= |parts| <= 2 && partition < |parts| && (forall p | 0 <= p < |parts| :: |parts[p]| == g.blocks)
      && forall j | 0 <= j < g.blocks :: Merged(parts)[j].lsn <= lsn && |Merged(parts)[j].payload| == g.Payload()
    }

    /** A buffer on a formatted device, after nvr_reset. */
    constructor (geometry: Geometry, partitions: nat, firstLsn: nat)
      requires geometry.Ok() && 1 <= partitions <= 2
      ensures Valid() && g == geometry && chunks == [] && durable == [] && |parts| == partitions && fresh(data) && !locked
    {
      var zeros: Bytes := seq(geometry.Payload(), _ => 0);
      var clean := seq(geometry.blocks, _ => Block(firstLsn, 0, zeros));
      g := geometry;
      data := new Block[geometry.blocks](_ => Block(firstLsn, 0, zeros));
      off, syncoff, locked, partition, lsn := 0, 0, false, 0, firstLsn;
      parts := seq(partitions, _ => clean);
      chunks, durable, resetLsn := [], [], firstLsn;
    }

    /** Copy into one block of the buffer. */
    method CopyIn(row: nat, at: nat, x: Bytes)
      requires row < data.Length && at + |x| <= |data[row].payload|
      modifies data
      ensures data[..] == old(data[..])[row := Copied(old(data[row]), at, x)]
    {
      data[row] := Copied(data[row], at, x);
    }

    method SetUsed(row: nat, used: nat)
      requires row < data.Length
      modifies data
      ensures data[..] == old(data[..])[row := old(data[row]).(used := used)]
    {
      data[row] := data[row].(used := used);
    }

    /** nvr_buf: append to the buffer in memory, if there is room. */
    method Append(x: Bytes) returns (ok: bool)
      requires Valid()
      modifies this`off, this`chunks, data
      ensures Valid()
      ensures ok <==> OffOf(g, AppendChunks(g, old(chunks), x)) <= g.limit
      ensures chunks == if ok then AppendChunks(g, old(chunks), x) else old(chunks)
      ensures !ok ==> off == old(off) && data[..] == old(data[..])
    {
      hide Holds, Merged, Advanced, Chunked, Behind, Opened, Filled, Join, MemoryHolds;
      SpaceCheckExact(g, chunks, x);
      ok := SpaceAvailable(g, off, |x|);
      if !ok {
        return;
      }
      ghost var cur := Opened(g, chunks);
      AppendReady(g, durable, chunks, data[..], x);
      var row, pos := off / g.blk, off % g.blk;
      if pos == 0 {
        pos := g.meta;
      }
      row, pos := Fill(row, pos, x, cur);
      off := row * g.blk + pos;
      chunks := AppendChunks(g, chunks, x);
    }

    /** The loop of nvr_buf. */
    method Fill(row0: nat, pos0: nat, x: Bytes, ghost c: Chunks) returns (row: nat, pos: nat)
      requires g.Ok() && data.Length == g.blocks && Chunked(g, c) && c != [] && |c[|c| - 1]| < g.Payload()
      requires row0 == |c| - 1 && pos0 == g.meta + |c[|c| - 1]| && |Filled(g, c, x)| <= g.blocks
      requires InMemory(g, data[..], c)
      modifies data
      ensures row == |Filled(g, c, x)| - 1 && pos == g.meta + |Filled(g, c, x)[row]|
      ensures MemoryHolds(g, data[..], Filled(g, c, x))
    {
      hide Filled, Chunked, InMemory, MemoryHolds;
      row, pos := row0, pos0;
      ghost var cur, goal := c, Filled(g, c, x);
      var i := 0;
      assert x[0..] == x;
      while i < |x|
        invariant 0 <= i <= |x| && Filling(g, cur, x[i..]) && Filled(g, cur, x[i..]) == goal
        invariant row == |cur| - 1 && pos == g.meta + |cur[row]|
        invariant InMemory(g, data[..], cur)
      {
        var room := g.blk - pos;
        var tocpy := if |x| - i < room then |x| - i else room;
        FillStep(g, cur, x[i..], tocpy);
        assert x[i..][..tocpy] == x[i..i + tocpy] && x[i..][tocpy..] == x[i + tocpy..];
        MemoryBounds(g, data[..], cur);
        CopiedInMemory(g, data[..], cur, x[i..i + tocpy]);
        CopyIn(row, pos - g.meta, x[i..i + tocpy]);
        cur := cur[row := cur[row] + x[i..i + tocpy]];
        i, pos := i + tocpy, pos + tocpy;
        if i < |x| {
          NextBlock(g, cur, x[i..], goal);
          NextInMemory(g, data[..], cur);
          SetUsed(row, g.blk);
          row, pos := row + 1, g.meta;
          cur := cur + [[]];
        }
      }
      assert x[i..] == [];
      FillEnd(g, cur);
      MemoryBounds(g, data[..], cur);
      DoneInMemory(g, data[..], cur);
      SetUsed(row, pos);
    }

    // ------------------------------------------------- nvr_sync_buf_internal

    /** Stamp blocks f..e-1 with fresh LSNs and write them to the next partition. */
    method WriteBlocks(f: nat, e: nat)
      requires f <= e <= data.Length && 1 <= |parts| <= 2 && partition < |parts|
      requires forall p | 0 <= p < |parts| :: |parts[p]| == data.Length
      modifies this`lsn, this`parts, this`partition, data
      ensures lsn == old(lsn) + (e - f)
      ensures data[..] == Stamped(old(data[..]), f, e, old(lsn))
      ensures parts == old(parts)[old(partition) := Overwritten(old(parts[partition]), data[..], f, e)]
      ensures partition == if |parts| == 1 then 0 else 1 - old(partition)
    {
      var i := f;
      while i < e
        invariant f <= i <= e && lsn == old(lsn) + (i - f)
        invariant data[..] == Stamped(old(data[..]), f, i, old(lsn))
        invariant parts == old(parts) && partition == old(partition)
      {
        lsn := lsn + 1;
        data[i] := data[i].(lsn := lsn);
        i := i + 1;
      }
      parts := parts[partition := Overwritten(parts[partition], data[..], f, e)];
      partition := (partition + 1) % |parts|;
    }

    /** Write the blocks from the sync offset up to `tmp`, the offset of the goal. */
    method SyncTo(tmp: nat, ghost goal: Chunks)
      requires Valid() && (goal == chunks || (|chunks| > 1 && goal == chunks[..|chunks| - 1] && |durable| < |chunks|))
      requires tmp == OffOf(g, goal)
      modifies this`lsn, this`parts, this`partition, this`syncoff, this`durable, data
      ensures Valid() && syncoff == tmp && durable == goal
      ensures |parts| == |old(parts)|
      ensures |parts| == 2 ==> partition == 1 - old(partition) && parts[partition] == old(parts)[partition]
    {
      hide Holds, Chunked, Behind, MemoryHolds, OffOf, Merged, Overwritten, Stamped;
      SyncRange(g, durable, chunks, goal);
      SyncBounds(g, data[..], chunks, goal);
      var f, e := syncoff / g.blk, RoundUp(tmp, g.blk) / g.blk;
      SyncedDevice(g, parts, partition, durable, chunks, goal, data[..], resetLsn, lsn);
      StampedMemory(g, data[..], chunks, f, e, lsn);
      WriteBlocks(f, e);
      syncoff := tmp;
      durable := goal;
    }

    /** One device write of nvr_sync_buf_internal.  If `maySplit` and the data ends inside a
        block beyond the next boundary, it stops at the last boundary. */
    method SyncStep(maySplit: bool) returns (split: bool)
      requires Valid()
      modifies this`lsn, this`parts, this`partition, this`syncoff, this`durable, data
      ensures Valid()
      ensures split <==> maySplit && off % g.blk != 0 && off / g.blk * g.blk > old(syncoff)
      ensures |parts| == |old(parts)|
      ensures |parts| == 2 ==> partition == 1 - old(partition) && parts[partition] == old(parts)[partition]
      ensures split ==> maySplit && syncoff > old(syncoff) && syncoff % g.blk == 0 && off - syncoff < g.blk
      ensures durable == if split then chunks[..|chunks| - 1] else chunks
      ensures split ==> chunks != [] && syncoff == (|chunks| - 1) * g.blk
    {
      hide Holds, Chunked, Behind, MemoryHolds, OffOf, Merged;
      var tmp := off;
      split := false;
      if off % g.blk != 0 { SplitIff(g.blk, syncoff, off); }
      if maySplit && tmp % g.blk != 0 &&
         (if syncoff % g.blk == 0 then tmp > syncoff + g.blk else tmp > RoundUp(syncoff, g.blk)) {
        SplitOk(g, durable, chunks);
        SyncRange(g, durable, chunks, chunks[..|chunks| - 1]);
        split, tmp := true, tmp / g.blk * g.blk;
      }
      SyncTo(tmp, if split then chunks[..|chunks| - 1] else chunks);
    }

    /** nvr_sync_buf_internal, run without interference. */
    method Sync(target: nat, aligned: bool) returns (result: nat)
      requires Valid()
      modifies this`lsn, this`parts, this`partition, this`syncoff, this`durable, data
      ensures Valid() && result == syncoff >= old(syncoff)
      ensures old(syncoff) >= target ==> durable == old(durable)
      ensures old(syncoff) < target && !aligned ==> durable == chunks
      ensures old(syncoff) < target ==> durable == chunks || (syncoff > old(syncoff) && syncoff % g.blk == 0)
      ensures aligned && old(syncoff) < target <= off && syncoff < target ==>
                syncoff > old(syncoff) && off - syncoff < g.blk
      ensures old(syncoff) < target && aligned && off % g.blk != 0 && off / g.blk * g.blk > old(syncoff) ==>
                chunks != [] && durable == chunks[..|chunks| - 1]
    {
      if syncoff >= target {
        return syncoff;
      }
      SyncMonotone(g, durable, chunks);
      var split := SyncStep(true);
      if split && !aligned {
        // restart for the residue: the wanted offset is now one past the boundary
        var _ := SyncStep(false);
      }
      result := syncoff;
    }

    /** nvr_write_buffer_internal with sync: append, then make everything durable.  A refused
        write keeps the mutex; a call that finds it kept does not return. */
    method WriteSynced(x: Bytes) returns (r: Outcome)
      requires Ready()
      modifies this`lsn, this`parts, this`partition, this`syncoff, this`durable, this`off, this`chunks, this`locked, data
      ensures Ready()
      ensures r.Stuck? <==> old(locked)
      ensures r.Done? <==> !old(locked) && OffOf(g, AppendChunks(g, old(chunks), x)) <= g.limit
      ensures r.Done? ==>
                !locked && chunks == durable == AppendChunks(g, old(chunks), x) && Join(durable) == old(Join(chunks)) + x
      ensures !r.Done? ==> locked && chunks == old(chunks) && durable == old(durable) && parts == old(parts)
    {
      hide Holds, Chunked, Behind, MemoryHolds, Merged, OffOf, AppendChunks;
      if locked {
        return Stuck;
      }
      locked := true;
      var ok := Append(x);
      if !ok {
        ValidDevice();
        return Refused;
      }
      locked := false;
      AppendOk(g, old(chunks), x);
      AppendGrows(g, durable, old(chunks), x);
      var _ := Sync(off, false);
      ValidDevice();
      r := Done;
    }

    lemma ValidDevice()
      requires Valid()
      ensures DeviceOk()
    {
      hide Merged, Holds, Chunked, Behind, OffOf;
    }

    /** nvr_reset_buffer: block 0 is rewritten as unused; the other blocks stay.  It goes through
        the same function as a write, with the same mutex and the same space check. */
    method Reset() returns (r: Outcome)
      requires Resettable()
      modifies this, data
      ensures r.Stuck? <==> old(locked)
      ensures r.Done? <==> !old(locked) && g.blk <= g.limit
      ensures r.Done? ==> Valid() && !locked && chunks == [] && durable == [] && resetLsn == lsn > old(lsn)
      ensures !r.Done? ==> locked && parts == old(parts) && durable == old(durable) && data[..] == old(data[..])
      ensures !r.Done? ==> lsn == old(lsn) && resetLsn == old(resetLsn) && partition == old(partition)
      ensures off == 0 && syncoff == 0 && |parts| == |old(parts)|
    {
      hide Merged, Advanced, Holds, MemoryHolds, OffOf;
      off, syncoff := 0, 0;
      if locked {
        return Stuck;
      }
      locked := true;
      var fits := SpaceAvailable(g, off, g.blk - g.meta);
      ResetSpace(g);
      if !fits {
        return Refused;
      }
      locked := false;
      EraseFirst();
      r := Done;
    }

    /** The data half of a reset: zeros in memory and on the device. */
    method EraseFirst()
      requires Resettable()
      modifies this`lsn, this`parts, this`partition, this`off, this`syncoff, this`chunks, this`durable, this`resetLsn, data
      ensures Valid() && chunks == [] && durable == [] && off == 0 && syncoff == 0
      ensures resetLsn == lsn > old(lsn) && |parts| == |old(parts)|
    {
      hide Merged;
      var zeros: Bytes := seq(g.blk - g.meta, _ => 0);
      data[0] := Block(data[0].lsn, 0, zeros);
      ResetHolds(g, parts, partition, Stamped(data[..], 0, 1, lsn), lsn);
      WriteBlocks(0, 1);
      off, syncoff := 0, 0;
      chunks, durable, resetLsn := [], [], lsn;
    }

    /** Other buffers take LSNs from the same counter. */
    method OthersSync(n: nat)
      requires Ready()
      modifies this`lsn
      ensures Ready() && lsn == old(lsn) + n
    {
      hide Merged, MemoryHolds, Chunked, Behind, OffOf;
      lsn := lsn + n;
    }

    /** nvr_rebuild after a restart: memory is read back from the device. */
    method Rebuild() returns (d: seq<Block>, off': nat)
      requires DeviceOk()
      ensures d == Merged(parts) && Holds(g, d, durable, resetLsn, lsn)
      ensures off' == 0 <==> d[0].used == 0
    {
      if |parts| == 1 {
        d := parts[0];
      } else {
        d := parts[0];
        for j := 0 to g.blocks
          invariant |d| == g.blocks
          invariant forall i | 0 <= i < g.blocks :: d[i] == if i < j then Newer(parts[0][i], parts[1][i]) else parts[0][i]
        {
          if parts[1][j].lsn > d[j].lsn {
            d := d[j := parts[1][j]];
          }
        }
      }
      assert d == Merged(parts);
      off' := 0;
      var j := 0;
      while j < g.blocks && d[j].used != 0
        invariant 0 <= j <= g.blocks && (off' == 0 <==> j == 0)
        invariant j > 0 ==> d[0].used != 0
      {
        off' := off' + d[j].used;
        j := j + 1;
      }
    }

    /** nvr_rebuild's LSN: one past the largest on the device. */
    method LargestLsn(d: seq<Block>) returns (next: nat)
      ensures forall j | 0 <= j < |d| :: d[j].lsn < next
    {
      next := 1;
      for j := 0 to |d|
        invariant next > 0 && forall i | 0 <= i < j :: d[i].lsn <= next
      {
        if next < d[j].lsn {
          next := d[j].lsn;
        }
      }
      next := next + 1;
    }

    /** Memory, counters and mutexes start afresh from what the device holds. */
    method Reload() returns (x: Bytes)
      requires DeviceOk()
      modifies this, data
      ensures x == Join(durable) && !locked && parts == old(parts) && durable == old(durable)
      ensures DeviceOk()
    {
      hide Merged, Join;
      var d, off' := Rebuild();
      x := ReadBuffer(g, d, off', durable, resetLsn, lsn);
      forall j | 0 <= j < data.Length {
        data[j] := d[j];
      }
      off, syncoff, locked, partition := off', off', false, 0;
      var next := LargestLsn(d);
      RestartedHolds(g, d, durable, resetLsn, lsn, next);
      resetLsn := if resetLsn < next then resetLsn else next;
      lsn := next;
    }

    /** Crash and restart: the buffer is rebuilt from the device, read, and reset once its content
        is safe elsewhere. */
    method Restart() returns (x: Bytes, r: Outcome)
      requires DeviceOk()
      modifies this, data
      ensures x == old(Join(durable)) && Ready() && |parts| == |old(parts)|
      ensures r == if g.blk <= g.limit then Done else Refused
      ensures if r.Done? then !locked && chunks == [] && durable == [] else locked && durable == old(durable)
    {
      hide Merged, Holds, Join, MemoryHolds, OffOf, Chunked, Behind;
      x := Reload();
      assert Resettable() by { DeviceResets(); }
      r := Reset();
      if r.Done? { ValidDevice(); }
    }

    lemma DeviceResets()
      requires DeviceOk()
      ensures Resettable()
    {
      hide Merged, Join;
    }
  }

  /** At the start of the buffer the zeros of a reset end with the first block. */
  lemma ResetSpace(g: Geometry)
    requires g.Ok()
    ensures 0 % g.blk == 0 && Advanced(g, g.meta, g.blk - g.meta) == g.blk
  {
    DivMod(0, g.blk, 0);
    DivMod(0, g.blk, g.meta);
    AdvancedEnd(g, g.meta, g.blk - g.meta);
  }

  /** The LSN counter found on the device will do as well as the one that was lost. */
  lemma RestartedHolds(g: Geometry, d: seq<Block>, c: Chunks, resetLsn: nat, lsn: nat, lsn': nat)
    requires g.Ok() && Holds(g, d, c, resetLsn, lsn) && forall j | 0 <= j < |d| :: d[j].lsn < lsn'
    ensures Holds(g, d, c, if resetLsn < lsn' then resetLsn else lsn', lsn')
  {}

  function Copied(b: Block, at: nat, x: Bytes): Block
    requires at + |x| <= |b.payload|
  {
    b.(payload := b.payload[..at] + x + b.payload[at + |x|..])
  }

  /** A state of the copying loop: the last block has room for what is left, if anything is. */
  ghost predicate Filling(g: Geometry, c: Chunks, rest: Bytes)
    requires g.Ok()
  {
    Chunked(g, c) && c != [] && |c[|c| - 1]| <= g.Payload() && (|c[|c| - 1]| == g.Payload() ==> rest == [])
  }

  lemma FillStep(g: Geometry, c: Chunks, rest: Bytes, n: nat)
    requires g.Ok() && Filling(g, c, rest) && rest != []
    requires n == if |rest| < g.Payload() - |c[|c| - 1]| then |rest| else g.Payload() - |c[|c| - 1]|
    ensures 0 < n <= |rest| && |c[|c| - 1]| + n <= g.Payload()
    ensures var c1 := c[|c| - 1 := c[|c| - 1] + rest[..n]];
            && Chunked(g, c1) && (n < |rest| ==> |c1[|c| - 1]| == g.Payload())
            && Filled(g, c, rest) == if n < |rest| then Filled(g, c1 + [[]], rest[n..]) else Filled(g, c1, rest[n..])
  {
    if n == |rest| {
      assert rest[..n] == rest && rest[n..] == [];
      FilledDone(g, c[|c| - 1 := c[|c| - 1] + rest]);
    }
  }

  lemma NextBlock(g: Geometry, c: Chunks, rest: Bytes, goal: Chunks)
    requires g.Ok() && Chunked(g, c) && c != [] && |c[|c| - 1]| == g.Payload() && Filled(g, c + [[]], rest) == goal
    ensures Filling(g, c + [[]], rest) && |c| < |goal|
  {
    FilledOk(g, c + [[]], rest);
  }

  lemma FillEnd(g: Geometry, c: Chunks)
    requires g.Ok() && Filling(g, c, [])
    ensures Filled(g, c, []) == c
  {
    FilledDone(g, c);
  }

  lemma MemoryBounds(g: Geometry, mem: seq<Block>, c: Chunks)
    requires g.Ok() && InMemory(g, mem, c)
    ensures |mem| == g.blocks && 0 < |c| <= g.blocks && |mem[|c| - 1].payload| == g.Payload()
    ensures |c[|c| - 1]| <= g.Payload()
  {}

  lemma CopiedInMemory(g: Geometry, mem: seq<Block>, c: Chunks, x: Bytes)
    requires g.Ok() && InMemory(g, mem, c) && |c[|c| - 1]| + |x| <= g.Payload()
    ensures var row := |c| - 1;
            InMemory(g, mem[row := Copied(mem[row], |c[row]|, x)], c[row := c[row] + x])
  {
    var row := |c| - 1;
    var b, last := mem[row], c[row];
    var b' := Copied(b, |last|, x);
    assert b'.payload[..|last + x|] == last + x;
    assert |b'.payload| == g.Payload();
  }

  lemma NextInMemory(g: Geometry, mem: seq<Block>, c: Chunks)
    requires g.Ok() && InMemory(g, mem, c) && |c[|c| - 1]| == g.Payload() && |c| < g.blocks
    ensures InMemory(g, mem[|c| - 1 := mem[|c| - 1].(used := g.blk)], c + [[]])
  {}

  lemma DoneInMemory(g: Geometry, mem: seq<Block>, c: Chunks)
    requires g.Ok() && InMemory(g, mem, c)
    ensures MemoryHolds(g, mem[|c| - 1 := mem[|c| - 1].(used := g.meta + |c[|c| - 1]|)], c)
  {}

  /** Memory while the last block is being filled: its used length is not yet set. */
  ghost predicate InMemory(g: Geometry, mem: seq<Block>, c: Chunks)
    requires g.Ok()
  {
    && |mem| == g.blocks && 0 < |c| <= g.blocks
    && (forall j | 0 <= j < |mem| :: |mem[j].payload| == g.Payload())
    && (forall j | 0 <= j < |c| - 1 :: LiveBlock(g, mem[j], c[j]))
    && |c[|c| - 1]| <= g.Payload() && mem[|c| - 1].payload[..|c[|c| - 1]|] == c[|c| - 1]
  }

  lemma FilledDone(g: Geometry, c: Chunks)
    requires g.Ok() && c != [] && |c[|c| - 1]| <= g.Payload()
    ensures Filled(g, c, []) == c
  {
    assert c[|c| - 1] + [] == c[|c| - 1];
  }

  /** Where nvr_buf starts copying. */
  lemma OpenedAt(g: Geometry, c: Chunks)
    requires g.Ok() && Chunked(g, c)
    ensures var off, c1 := OffOf(g, c), Opened(g, c);
            && Chunked(g, c1) && c1 != [] && |c1[|c1| - 1]| < g.Payload()
            && off / g.blk == |c1| - 1
            && (if off % g.blk == 0 then g.meta else off % g.blk) == g.meta + |c1[|c1| - 1]|
  {
    if c != [] { OffParts(g, c); } else { DivMod(0, g.blk, 0); }
  }

  lemma AppendReady(g: Geometry, d: Chunks, c: Chunks, mem: seq<Block>, x: Bytes)
    requires g.Ok() && Chunked(g, c) && Behind(d, c) && MemoryHolds(g, mem, c)
    requires OffOf(g, AppendChunks(g, c, x)) <= g.limit
    ensures var c1, c2, off := Opened(g, c), AppendChunks(g, c, x), OffOf(g, c);
            && Chunked(g, c1) && c1 != [] && |c1[|c1| - 1]| < g.Payload() && InMemory(g, mem, c1)
            && Chunked(g, c2) && c2 != [] && |c2| <= g.blocks && Behind(d, c2)
            && off / g.blk == |c1| - 1
            && (if off % g.blk == 0 then g.meta else off % g.blk) == g.meta + |c1[|c1| - 1]|
  {
    hide Filled;
    AppendOk(g, c, x);
    AppendBehind(g, d, c, x);
    BlocksOf(g, AppendChunks(g, c, x));
    OpenedAt(g, c);
    FilledOk(g, Opened(g, c), x);
  }

  lemma AppendBehind(g: Geometry, d: Chunks, c: Chunks, x: Bytes)
    requires g.Ok() && Chunked(g, c) && Behind(d, c)
    ensures Behind(d, AppendChunks(g, c, x))
  {
    var c1 := Opened(g, c);
    assert Behind(d, c1);
    FilledKeeps(g, c1, x);
    FilledOk(g, c1, x);
    var c2 := Filled(g, c1, x);
    forall j | 0 <= j < |d| - 1 ensures d[j] == c2[j] { assert c2[j] == c2[..|c1| - 1][j]; }
    if d != [] && |d| < |c1| { assert c2[|d| - 1] == c2[..|c1| - 1][|d| - 1]; }
  }

  lemma {:induction false} FilledKeeps(g: Geometry, c: Chunks, x: Bytes)
    requires g.Ok() && Chunked(g, c) && c != []
    requires |c[|c| - 1]| == g.Payload() ==> x == []
    ensures |Filled(g, c, x)| >= |c| && c[|c| - 1] <= Filled(g, c, x)[|c| - 1]
    decreases |x|
  {
    var last := c[|c| - 1];
    var room := g.Payload() - |last|;
    if |x| > room {
      var c1 := c[|c| - 1 := last + x[..room]] + [[]];
      FilledOk(g, c1, x[room..]);
      assert Filled(g, c, x)[|c| - 1] == Filled(g, c, x)[..|c1| - 1][|c| - 1];
    }
  }

  // ---------------------------------------------------------- syncing, on values

  /** The roundup macro of utils/rico.h. */
  function RoundUp(n: nat, r: nat): nat
    requires r > 0
  {
    n - 1 - (n + r - 1) % r + r
  }

  lemma RoundUpIs(k: nat, c: nat, r: nat)
    requires r > 0 && 0 < c <= r
    ensures RoundUp(k * r + c, r) == (k + 1) * r
  {
    assert k * r + c + r - 1 == (k + 1) * r + (c - 1);
    DivMod(k + 1, r, c - 1);
  }

  /** The test for a split: the data ends inside a block, and a block boundary lies beyond what is synced. */
  lemma SplitIff(blk: nat, syncoff: nat, off: nat)
    requires blk > 0 && off % blk != 0
    ensures (if syncoff % blk == 0 then off > syncoff + blk else off > RoundUp(syncoff, blk)) <==> off / blk * blk > syncoff
  {
    hide RoundUp;
    var k, c, m, d := syncoff / blk, syncoff % blk, off / blk, off % blk;
    assert syncoff == k * blk + c && off == m * blk + d;
    if c != 0 { RoundUpIs(k, c, blk); }
    BoundaryBetween(blk, k, c, m, d);
  }

  lemma BoundaryBetween(blk: nat, k: nat, c: nat, m: nat, d: nat)
    requires c < blk && 0 < d < blk
    ensures (k + 1) * blk == k * blk + blk
    ensures m * blk + d > (k + 1) * blk <==> m * blk > k * blk + c
  {
    if k < m { MulAtLeast(k + 1, m, blk); } else { MulAtLeast(m, k, blk); }
  }

  lemma RoundUpZero(r: nat)
    requires r > 0
    ensures RoundUp(0, r) == 0
  {
    DivMod(0, r, r - 1);
  }

  function Stamped(mem: seq<Block>, f: nat, e: nat, lsn: nat): (m: seq<Block>)
    requires f <= e <= |mem|
    ensures |m| == |mem|
    ensures forall j | 0 <= j < |mem| :: m[j] == if f <= j < e then mem[j].(lsn := lsn + (j - f) + 1) else mem[j]
  {
    seq(|mem|, j requires 0 <= j < |mem| => if f <= j < e then mem[j].(lsn := lsn + (j - f) + 1) else mem[j])
  }

  function Overwritten(part: seq<Block>, mem: seq<Block>, f: nat, e: nat): (q: seq<Block>)
    requires f <= e <= |mem| == |part|
    ensures |q| == |part| && forall j | 0 <= j < |part| :: q[j] == if f <= j < e then mem[j] else part[j]
  {
    part[..f] + mem[f..e] + part[e..]
  }

  /** First block a sync writes: the one holding the sync offset, if it is partly filled. */
  ghost function FirstBlock(g: Geometry, d: Chunks): nat
    requires g.Ok()
  {
    if d == [] then 0 else if |d[|d| - 1]| == g.Payload() then |d| else |d| - 1
  }

  lemma OffBlocks(g: Geometry, c: Chunks)
    requires g.Ok() && Chunked(g, c)
    ensures OffOf(g, c) / g.blk == FirstBlock(g, c)
    ensures RoundUp(OffOf(g, c), g.blk) == |c| * g.blk && RoundUp(OffOf(g, c), g.blk) / g.blk == |c|
  {
    if c == [] {
      DivMod(0, g.blk, 0);
      RoundUpZero(g.blk);
    } else {
      OffParts(g, c);
      RoundUpIs(|c| - 1, g.meta + |c[|c| - 1]|, g.blk);
      DivMod(|c|, g.blk, 0);
    }
  }

  lemma SyncRange(g: Geometry, d: Chunks, c: Chunks, goal: Chunks)
    requires g.Ok() && Chunked(g, d) && Chunked(g, c) && Behind(d, c)
    requires goal == c || (c != [] && goal == c[..|c| - 1] && |d| < |c| && |c| > 1)
    ensures Chunked(g, goal) && Behind(d, goal) && Behind(goal, c)
    ensures OffOf(g, d) / g.blk == FirstBlock(g, d) <= |goal|
    ensures RoundUp(OffOf(g, goal), g.blk) / g.blk == |goal|
    ensures goal != c ==> OffOf(g, goal) == (|c| - 1) * g.blk
  {
    OffBlocks(g, d);
    OffBlocks(g, c);
    if goal != c {
      OffParts(g, goal);
      OffBlocks(g, goal);
    }
  }

  lemma SyncBounds(g: Geometry, mem: seq<Block>, c: Chunks, goal: Chunks)
    requires g.Ok() && MemoryHolds(g, mem, c) && |goal| <= |c|
    ensures |goal| <= |mem| == g.blocks
  {}

  /** What the split condition of the source means for the blocks. */
  lemma SplitOk(g: Geometry, d: Chunks, c: Chunks)
    requires g.Ok() && Chunked(g, d) && Chunked(g, c) && Behind(d, c)
    requires OffOf(g, c) % g.blk != 0
    requires var s, t := OffOf(g, d), OffOf(g, c);
             if s % g.blk == 0 then t > s + g.blk else t > RoundUp(s, g.blk)
    ensures c != [] && |c| > 1 && |d| < |c|
    ensures OffOf(g, c) / g.blk * g.blk == (|c| - 1) * g.blk
    ensures (|c| - 1) * g.blk > OffOf(g, d) && ((|c| - 1) * g.blk) % g.blk == 0
    ensures OffOf(g, c) - (|c| - 1) * g.blk < g.blk
  {
    var b := g.blk;
    assert c != [] by { DivMod(0, b, 0); }
    OffParts(g, c);
    OffBlocks(g, d);
    DivMod(|c| - 1, b, 0);
    var t := OffOf(g, c);
    assert t < |c| * b by { assert |c| * b == (|c| - 1) * b + b; }
    if d == [] {
      MulLess(1, |c|, b);
    } else {
      OffParts(g, d);
      if |d[|d| - 1]| == g.Payload() {
        assert (|d| + 1) * b == |d| * b + b;
        MulLess(|d| + 1, |c|, b);
        assert (|c| - 1) * b >= (|d| + 1) * b by { MulAtLeast(|d| + 1, |c| - 1, b); }
      } else {
        MulLess(|d|, |c|, b);
        assert (|c| - 1) * b >= |d| * b by { MulAtLeast(|d|, |c| - 1, b); }
        assert |d| * b == (|d| - 1) * b + b;
      }
    }
  }

  lemma MulAtLeast(a: nat, b: nat, c: nat)
    requires a <= b
    ensures a * c <= b * c
  {}

  /** Blocks written by a sync, seen through the merge of the partitions. */
  ghost function DeviceAfter(d: seq<Block>, mem: seq<Block>, f: nat, e: nat): seq<Block>
    requires f <= e <= |mem| == |d|
  {
    Overwritten(d, mem, f, e)
  }

  /** A fresh LSN wins the merge, whichever partition it goes to. */
  lemma MergedWritten(g: Geometry, parts: seq<seq<Block>>, p: nat, mem: seq<Block>, f: nat, e: nat, lsn: nat)
    requires 1 <= |parts| <= 2 && p < |parts| && forall q | 0 <= q < |parts| :: |parts[q]| == |mem|
    requires f <= e <= |mem| && forall j | f <= j < e :: mem[j].lsn > lsn
    requires forall j | 0 <= j < |mem| :: Merged(parts)[j].lsn <= lsn
    ensures var parts' := parts[p := Overwritten(parts[p], mem, f, e)];
            && (forall q | 0 <= q < |parts'| :: |parts'[q]| == |mem|)
            && Merged(parts') == DeviceAfter(Merged(parts), mem, f, e)
  {
    var parts' := parts[p := Overwritten(parts[p], mem, f, e)];
    assert forall q | 0 <= q < |parts'| :: |parts'[q]| == |mem|;
    assert |Merged(parts')| == |mem|;
    forall j | 0 <= j < |mem| ensures Merged(parts')[j] == DeviceAfter(Merged(parts), mem, f, e)[j] {
      assert Merged(parts)[j].lsn <= lsn;
    }
  }

  /** After a sync the device holds the goal: live LSNs increase and exceed all stale ones. */
  lemma HoldsWritten(g: Geometry, d: seq<Block>, dur: Chunks, c: Chunks, goal: Chunks, mem: seq<Block>, resetLsn: nat, lsn: nat)
    requires g.Ok() && Chunked(g, dur) && Chunked(g, goal) && Behind(dur, goal) && Behind(goal, c)
    requires goal == c || (c != [] && goal == c[..|c| - 1])
    requires Holds(g, d, dur, resetLsn, lsn) && MemoryHolds(g, mem, c) && FirstBlock(g, dur) <= |goal|
    ensures var f, e := FirstBlock(g, dur), |goal|;
            Holds(g, DeviceAfter(d, Stamped(mem, f, e, lsn), f, e), goal, resetLsn, lsn + (e - f))
  {
    hide Overwritten, Stamped;
    var f, e := FirstBlock(g, dur), |goal|;
    var d' := DeviceAfter(d, Stamped(mem, f, e, lsn), f, e);
    forall j | 0 <= j < |goal| ensures LiveBlock(g, d'[j], goal[j]) && d'[j].lsn > resetLsn {
      WrittenLive(g, d, dur, c, goal, mem, resetLsn, lsn, j);
    }
    forall i, j | 0 <= i < j < |goal| ensures d'[i].lsn < d'[j].lsn {
      if i < f { assert d[i].lsn <= lsn; }
    }
  }

  lemma WrittenLive(g: Geometry, d: seq<Block>, dur: Chunks, c: Chunks, goal: Chunks, mem: seq<Block>, resetLsn: nat, lsn: nat, j: nat)
    requires g.Ok() && Chunked(g, dur) && Chunked(g, goal) && Behind(dur, goal)
    requires goal == c || (c != [] && goal == c[..|c| - 1])
    requires Holds(g, d, dur, resetLsn, lsn) && MemoryHolds(g, mem, c) && FirstBlock(g, dur) <= |goal|
    requires j < |goal|
    ensures var f, e := FirstBlock(g, dur), |goal|;
            var b := DeviceAfter(d, Stamped(mem, f, e, lsn), f, e)[j];
            LiveBlock(g, b, goal[j]) && b.lsn > resetLsn
  {
    hide Overwritten, Stamped;
    assert goal[j] == c[j];
    if j < FirstBlock(g, dur) {
      assert LiveBlock(g, d[j], dur[j]) && d[j].lsn > resetLsn;
      assert dur[j] == goal[j];
    } else {
      assert LiveBlock(g, mem[j], c[j]);
    }
  }

  lemma StampedMemory(g: Geometry, mem: seq<Block>, c: Chunks, f: nat, e: nat, lsn: nat)
    requires g.Ok() && MemoryHolds(g, mem, c) && f <= e <= |mem|
    ensures MemoryHolds(g, Stamped(mem, f, e, lsn), c)
  {
    var m := Stamped(mem, f, e, lsn);
    forall j | 0 <= j < |c| ensures LiveBlock(g, m[j], c[j]) { assert LiveBlock(g, mem[j], c[j]); }
  }

  lemma SyncMonotone(g: Geometry, d: Chunks, c: Chunks)
    requires g.Ok() && Chunked(g, d) && Chunked(g, c) && Behind(d, c)
    ensures OffOf(g, d) <= OffOf(g, c)
  {
    if d != [] && |d| < |c| {
      MulAtLeast(|d|, |c| - 1, g.blk);
      assert |d| * g.blk == (|d| - 1) * g.blk + g.blk;
    }
  }

  /** An append moves the offset beyond everything synced. */
  lemma AppendGrows(g: Geometry, d: Chunks, c: Chunks, x: Bytes)
    requires g.Ok() && Chunked(g, d) && Chunked(g, c) && Behind(d, c)
    ensures OffOf(g, d) < OffOf(g, AppendChunks(g, c, x)) || d == AppendChunks(g, c, x)
  {
    AppendOk(g, c, x);
    AppendBehind(g, d, c, x);
    var c' := AppendChunks(g, c, x);
    SyncMonotone(g, d, c');
    if OffOf(g, d) == OffOf(g, c') { SameOff(g, d, c'); }
  }

  lemma SameOff(g: Geometry, d: Chunks, c: Chunks)
    requires g.Ok() && Chunked(g, d) && Chunked(g, c) && Behind(d, c) && OffOf(g, d) == OffOf(g, c)
    ensures d == c
  {
    if d == [] {
      assert c != [] ==> (|c| - 1) * g.blk >= 0 by { if c != [] { MulAtLeast(0, |c| - 1, g.blk); } }
    } else if |d| < |c| {
      MulAtLeast(|d|, |c| - 1, g.blk);
    } else {
      assert d[|d| - 1] == c[|c| - 1];
    }
  }

  lemma SyncedDevice(g: Geometry, parts: seq<seq<Block>>, p: nat, dur: Chunks, c: Chunks, goal: Chunks, mem: seq<Block>,
                     resetLsn: nat, lsn: nat)
    requires g.Ok() && 1 <= |parts| <= 2 && p < |parts| && forall q | 0 <= q < |parts| :: |parts[q]| == g.blocks
    requires Chunked(g, dur) && Chunked(g, goal) && Behind(dur, goal) && Behind(goal, c)
    requires goal == c || (c != [] && goal == c[..|c| - 1])
    requires Holds(g, Merged(parts), dur, resetLsn, lsn) && MemoryHolds(g, mem, c) && FirstBlock(g, dur) <= |goal|
    ensures var f, e := FirstBlock(g, dur), |goal|;
            var parts' := parts[p := Overwritten(parts[p], Stamped(mem, f, e, lsn), f, e)];
            && (forall q | 0 <= q < |parts'| :: |parts'[q]| == g.blocks)
            && Holds(g, Merged(parts'), goal, resetLsn, lsn + (e - f))
  {
    hide Merged, MemoryHolds, Chunked, Behind;
    var f, e := FirstBlock(g, dur), |goal|;
    SyncBounds(g, mem, c, goal);
    HoldsWritten(g, Merged(parts), dur, c, goal, mem, resetLsn, lsn);
    MergedWritten(g, parts, p, Stamped(mem, f, e, lsn), f, e, lsn);
  }

  /** Resetting block 0 makes every block stale. */
  lemma ResetHolds(g: Geometry, parts: seq<seq<Block>>, p: nat, mem: seq<Block>, lsn: nat)
    requires g.Ok() && 1 <= |parts| <= 2 && p < |parts| && forall q | 0 <= q < |parts| :: |parts[q]| == g.blocks
    requires |mem| == g.blocks && mem[0].used == 0 && mem[0].lsn == lsn + 1 && |mem[0].payload| == g.Payload()
    requires forall j | 0 <= j < g.blocks :: Merged(parts)[j].lsn <= lsn && |Merged(parts)[j].payload| == g.Payload()
    ensures var parts' := parts[p := Overwritten(parts[p], mem, 0, 1)];
            (forall q | 0 <= q < |parts'| :: |parts'[q]| == g.blocks) &&
            Holds(g, Merged(parts'), [], lsn + 1, lsn + 1)
  {
    hide Merged;
    MergedWritten(g, parts, p, mem, 0, 1, lsn);
    var parts' := parts[p := Overwritten(parts[p], mem, 0, 1)];
    assert Merged(parts') == Overwritten(Merged(parts), mem, 0, 1);
    forall j | 0 <= j < g.blocks ensures Merged(parts')[j].lsn <= lsn + 1 && |Merged(parts')[j].payload| == g.Payload() {
      assert Merged(parts)[j].lsn <= lsn;
    }
  }

  // ----------------------------------------------------------------- whole runs

  datatype NvOp = NvWrite(x: Bytes) | NvReset | NvRestart | NvOthers(n: nat)

  /** Bytes in the buffer after the operations, given how they ended. */
  function BytesAfter(ops: seq<NvOp>, outs: seq<Outcome>): Bytes
    requires |ops| == |outs|
  {
    if ops == [] then []
    else
      var n := |ops| - 1;
      var s := BytesAfter(ops[..n], outs[..n]);
      if !outs[n].Done? then s
      else
        match ops[n]
        case NvWrite(x) => s + x
        case NvOthers(_) => s
        case _ => []
  }

  /** Blocks in use once x is written behind n bytes: the least number that holds them, but an
      empty write opens a block when none has room. */
  function BlocksWith(g: Geometry, n: nat, x: Bytes): nat
    requires g.Ok()
  {
    if x != [] then CeilDiv(n + |x|, g.Payload()) else n / g.Payload() + 1
  }

  /** The bytes and their headers stay within the limit. */
  predicate Fits(g: Geometry, n: nat, x: Bytes)
    requires g.Ok()
  {
    n + |x| + g.meta * BlocksWith(g, n, x) <= g.limit
  }

  /** A refusal is behind, and no restart since. */
  ghost predicate Held(ops: seq<NvOp>, outs: seq<Outcome>)
    requires |ops| == |outs|
  {
    exists j: nat | j < |outs| :: outs[j].Refused? && forall m | j < m < |ops| :: !ops[m].NvRestart?
  }

  /** The operations that take the buffer's mutex. */
  predicate Locks(op: NvOp) { op.NvWrite? || op.NvReset? }

  /** The space check that an operation goes through, behind n bytes. */
  predicate Passes(g: Geometry, op: NvOp, n: nat)
    requires g.Ok()
  {
    match op
    case NvWrite(x) => Fits(g, n, x)
    case NvOthers(_) => true
    case _ => g.blk <= g.limit
  }

  /** A buffer between operations: all synced. */
  ghost predicate Settled(b: Buffer, s: Bytes)
    reads b, b.data
  {
    b.Ready() && Join(b.durable) == s && (!b.locked ==> b.chunks == b.durable)
  }

  function OutcomeOf(g: Geometry, op: NvOp, n: nat, held: bool): Outcome
    requires g.Ok()
  {
    if held && Locks(op) then Stuck else if Passes(g, op, n) then Done else Refused
  }

  method PerformNv(b: Buffer, op: NvOp, ghost s: Bytes) returns (r: Outcome, x: Bytes)
    requires Settled(b, s) && b.g.Ok()
    modifies b, b.data
    ensures r == OutcomeOf(b.g, op, |s|, old(b.locked))
    ensures Settled(b, if !r.Done? then s else match op case NvWrite(y) => s + y case NvOthers(_) => s case _ => [])
    ensures b.locked == (r.Refused? || (old(b.locked) && !op.NvRestart?))
    ensures op.NvRestart? ==> x == s
  {
    hide Join, OffOf, AppendChunks, Holds, MemoryHolds, Merged, Chunked, Behind, CeilDiv, BlocksWith;
    r, x := Done, [];
    EmptyJoin();
    match op {
      case NvWrite(y) =>
        if !b.locked { WriteAccepted(b.g, b.chunks, y); }
        r := b.WriteSynced(y);
      case NvReset =>
        b.DeviceResets();
        r := b.Reset();
        if r.Done? { b.ValidDevice(); }
      case NvRestart =>
        x, r := b.Restart();
      case NvOthers(n) =>
        b.OthersSync(n);
    }
  }

  /** What operation i of a run does: a restart reads back the bytes, a call waits for good if and
      only if a refusal holds the mutex, and otherwise it is done or refused as the space check says. */
  ghost predicate AnsweredAt(g: Geometry, ops: seq<NvOp>, outs: seq<Outcome>, answers: seq<Bytes>, i: nat)
    requires g.Ok() && |outs| == |answers| == |ops| && i < |ops|
  {
    var s := BytesAfter(ops[..i], outs[..i]);
    && (ops[i].NvRestart? ==> answers[i] == s)
    && (outs[i].Stuck? <==> Locks(ops[i]) && Held(ops[..i], outs[..i]))
    && (outs[i].Done? <==> !outs[i].Stuck? && Passes(g, ops[i], |s|))
  }

  ghost predicate Answered(g: Geometry, ops: seq<NvOp>, outs: seq<Outcome>, answers: seq<Bytes>)
    requires g.Ok()
  {
    |outs| == |answers| == |ops| && forall i | 0 <= i < |ops| :: AnsweredAt(g, ops, outs, answers, i)
  }

  /** Any sequence of synced writes, resets, syncs of other buffers and restarts. */
  method RunBuffer(g: Geometry, partitions: nat, ops: seq<NvOp>) returns (outs: seq<Outcome>, answers: seq<Bytes>)
    requires g.Ok() && 1 <= partitions <= 2
    ensures Answered(g, ops, outs, answers)
  {
    hide Settled, Passes, BytesAfter, Answered, Held;
    var b := NewBuffer(g, partitions, ops);
    outs, answers := [], [];
    assert Answered(g, ops[..0], outs, answers) by { NothingAnswered(g, ops); }
    for k := 0 to |ops|
      invariant |outs| == |answers| == k && fresh(b) && fresh(b.data) && b.g == g
      invariant Settled(b, BytesAfter(ops[..k], outs)) && b.locked == Held(ops[..k], outs)
      invariant Answered(g, ops[..k], outs, answers)
    {
      var r, x := PerformNv(b, ops[k], BytesAfter(ops[..k], outs));
      BytesStep(ops, outs, r, k);
      HeldStep(ops, outs, r, k);
      AnsweredStep(g, ops, outs, answers, k, r, x);
      outs, answers := outs + [r], answers + [x];
    }
    assert ops[..|ops|] == ops;
  }

  lemma NothingAnswered(g: Geometry, ops: seq<NvOp>)
    requires g.Ok()
    ensures Answered(g, ops[..0], [], [])
  {}

  lemma AnsweredStep(g: Geometry, ops: seq<NvOp>, outs: seq<Outcome>, answers: seq<Bytes>, k: nat, r: Outcome, x: Bytes)
    requires g.Ok() && |outs| == |answers| == k < |ops| && Answered(g, ops[..k], outs, answers)
    requires ops[k].NvRestart? ==> x == BytesAfter(ops[..k], outs)
    requires r == OutcomeOf(g, ops[k], |BytesAfter(ops[..k], outs)|, Held(ops[..k], outs))
    ensures Answered(g, ops[..k + 1], outs + [r], answers + [x])
  {
    hide BytesAfter, Held, Passes;
    var o, a, w := ops[..k + 1], outs + [r], answers + [x];
    forall i | 0 <= i < |o| ensures AnsweredAt(g, o, a, w, i) {
      if i < k {
        assert AnsweredAt(g, ops[..k], outs, answers, i);
        assert o[..i] == ops[..k][..i] && a[..i] == outs[..i];
      } else {
        assert o[..k] == ops[..k] && a[..k] == outs;
      }
    }
  }

  method NewBuffer(g: Geometry, partitions: nat, ghost ops: seq<NvOp>) returns (b: Buffer)
    requires g.Ok() && 1 <= partitions <= 2
    ensures fresh(b) && fresh(b.data) && b.g == g && !b.locked && !Held(ops[..0], []) && Settled(b, BytesAfter(ops[..0], []))
  {
    b := new Buffer(g, partitions, 1);
    b.ValidDevice();
  }

  lemma EmptyJoin()
    ensures Join([]) == []
  {}

  lemma BytesStep(ops: seq<NvOp>, outs: seq<Outcome>, r: Outcome, k: nat)
    requires k < |ops| && |outs| == k
    ensures var s := BytesAfter(ops[..k], outs);
            BytesAfter(ops[..k + 1], outs + [r]) ==
            if !r.Done? then s else match ops[k] case NvWrite(x) => s + x case NvOthers(_) => s case _ => []
  {
    assert ops[..k + 1][..k] == ops[..k] && (outs + [r])[..k] == outs;
  }

  lemma HeldStep(ops: seq<NvOp>, outs: seq<Outcome>, r: Outcome, k: nat)
    requires k < |ops| && |outs| == k
    ensures Held(ops[..k + 1], outs + [r]) <==> r.Refused? || (Held(ops[..k], outs) && !ops[k].NvRestart?)
  {
    var o, a := ops[..k + 1], outs + [r];
    if r.Refused? { assert a[k].Refused?; }
    if Held(ops[..k], outs) && !ops[k].NvRestart? {
      var j: nat :| j < k && outs[j].Refused? && forall m | j < m < k :: !ops[..k][m].NvRestart?;
      assert a[j].Refused? && forall m | j < m < |o| :: !o[m].NvRestart? by {
        forall m | j < m < |o| ensures !o[m].NvRestart? { if m < k { assert o[m] == ops[..k][m]; } }
      }
    }
    if Held(o, a) && !r.Refused? {
      var j: nat :| j < |a| && a[j].Refused? && forall m | j < m < |o| :: !o[m].NvRestart?;
      assert outs[j].Refused? && !o[k].NvRestart?;
      forall m | j < m < k ensures !ops[..k][m].NvRestart? { assert ops[..k][m] == o[m]; }
    }
  }

  lemma WriteAccepted(g: Geometry, c: Chunks, x: Bytes)
    requires g.Ok() && Chunked(g, c)
    ensures OffOf(g, AppendChunks(g, c, x)) == |Join(c)| + |x| + g.meta * BlocksWith(g, |Join(c)|, x)
  {
    hide AppendChunks, Join, OffOf, CeilDiv, Chunked;
    var c' := AppendChunks(g, c, x);
    AppendOk(g, c, x);
    OffIsBytesAndHeaders(g, c');
    if x != [] {
      FullAppend(g, c, x);
      BlockCount(g, c');
    } else {
      EmptyAppend(g, c);
    }
  }

  lemma FullAppend(g: Geometry, c: Chunks, x: Bytes)
    requires g.Ok() && Chunked(g, c) && x != []
    ensures var c' := AppendChunks(g, c, x); c' != [] && c'[|c'| - 1] != []
  {
    hide Filled;
    FilledShape(g, Opened(g, c), x);
  }

  /** An empty write leaves a block open. */
  lemma EmptyAppend(g: Geometry, c: Chunks)
    requires g.Ok() && Chunked(g, c)
    ensures |AppendChunks(g, c, [])| == |Join(c)| / g.Payload() + 1
  {
    EmptyFilled(g, c);
    JoinLength(g, c);
    hide AppendChunks, Join;
    var p := g.Payload();
    if c == [] {
      DivMod(0, p, 0);
    } else {
      var k, r := |c| - 1, |c[|c| - 1]|;
      if r == p {
        assert |c| * p == k * p + p;
        DivMod(|c|, p, 0);
      } else {
        DivMod(k, p, r);
      }
    }
  }

  lemma EmptyFilled(g: Geometry, c: Chunks)
    requires g.Ok() && Chunked(g, c)
    ensures |AppendChunks(g, c, [])| == |Opened(g, c)|
  {}

  // -------------------------------------------------- when a caller gets stuck

  /** One write that does not fit, and the buffer is lost to its callers: neither a write that
      would fit nor a reset returns, until a restart. */
  lemma OneTooLong(g: Geometry, x: Bytes, y: Bytes, outs: seq<Outcome>, answers: seq<Bytes>)
    requires g.Ok() && !Fits(g, 0, x) && Answered(g, [NvWrite(x), NvWrite(y), NvReset, NvRestart], outs, answers)
    ensures outs[..3] == [Refused, Stuck, Stuck] && !outs[3].Stuck? && answers[3] == []
  {
    hide Fits;
    var ops := [NvWrite(x), NvWrite(y), NvReset, NvRestart];
    assert AnsweredAt(g, ops, outs, answers, 0);
    assert ops[..0] == [] && ops[..1] == [NvWrite(x)] && ops[..2] == [NvWrite(x), NvWrite(y)];
    assert Held(ops[..1], outs[..1]) by { assert outs[..1][0].Refused?; }
    assert AnsweredAt(g, ops, outs, answers, 1);
    assert Held(ops[..2], outs[..2]) by { assert outs[..2][0].Refused?; }
    assert AnsweredAt(g, ops, outs, answers, 2);
    assert AnsweredAt(g, ops, outs, answers, 3);
    NothingWritten(ops[..3], outs[..3]);
  }

  lemma {:induction false} NothingWritten(ops: seq<NvOp>, outs: seq<Outcome>)
    requires |ops| == |outs| && forall i | 0 <= i < |outs| :: !outs[i].Done?
    ensures BytesAfter(ops, outs) == []
  {
    if ops != [] { NothingWritten(ops[..|ops| - 1], outs[..|ops| - 1]); }
  }

  /** Bytes offered since the last reset or restart. */
  function Offered(ops: seq<NvOp>): Bytes {
    if ops == [] then []
    else
      var s := Offered(ops[..|ops| - 1]);
      match ops[|ops| - 1]
      case NvWrite(x) => s + x
      case NvOthers(_) => s
      case _ => []
  }

  /** Every operation passes its space check behind the bytes offered before it. */
  ghost predicate Affordable(g: Geometry, ops: seq<NvOp>)
    requires g.Ok()
  {
    forall i | 0 <= i < |ops| :: Passes(g, ops[i], |Offered(ops[..i])|)
  }

  lemma {:induction false} AllDoneBytes(ops: seq<NvOp>, outs: seq<Outcome>)
    requires |ops| == |outs| && forall i | 0 <= i < |outs| :: outs[i].Done?
    ensures BytesAfter(ops, outs) == Offered(ops) && !Held(ops, outs)
  {
    if ops != [] { AllDoneBytes(ops[..|ops| - 1], outs[..|ops| - 1]); }
  }

  lemma {:induction false} AffordableDone(g: Geometry, ops: seq<NvOp>, outs: seq<Outcome>, answers: seq<Bytes>, n: nat)
    requires g.Ok() && Answered(g, ops, outs, answers) && Affordable(g, ops) && n <= |ops|
    ensures forall i | 0 <= i < n :: outs[i].Done?
  {
    hide Passes;
    if n > 0 {
      AffordableDone(g, ops, outs, answers, n - 1);
      AllDoneBytes(ops[..n - 1], outs[..n - 1]);
      assert AnsweredAt(g, ops, outs, answers, n - 1);
    }
  }

  /** Every call of a run is done, and none refused or stuck, if and only if every operation passes
      its space check behind the bytes offered since the last reset. */
  lemma AllDoneIff(g: Geometry, ops: seq<NvOp>, outs: seq<Outcome>, answers: seq<Bytes>)
    requires g.Ok() && Answered(g, ops, outs, answers)
    ensures (forall i | 0 <= i < |ops| :: outs[i].Done?) <==> Affordable(g, ops)
  {
    hide Passes, BytesAfter, Offered, Held;
    if Affordable(g, ops) {
      AffordableDone(g, ops, outs, answers, |ops|);
    } else if forall i | 0 <= i < |ops| :: outs[i].Done? {
      forall i | 0 <= i < |ops| ensures Passes(g, ops[i], |Offered(ops[..i])|) {
        assert AnsweredAt(g, ops, outs, answers, i);
        AllDoneBytes(ops[..i], outs[..i]);
      }
    }
  }

  /** A caller that keeps the bytes since the last reset within the advertised capacity, and below
      it when it writes nothing, never meets a refusal. */
  ghost predicate WithinCapacity(g: Geometry, ops: seq<NvOp>) {
    && g.blk <= g.limit
    && forall i | 0 <= i < |ops| && ops[i].NvWrite? ::
         |Offered(ops[..i])| + (if ops[i].x == [] then 1 else |ops[i].x|) + g.blocks * g.meta <= g.limit
  }

  lemma CapacityAffordable(g: Geometry, ops: seq<NvOp>)
    requires g.Ok() && WithinCapacity(g, ops)
    ensures Affordable(g, ops)
  {
    hide Offered, Fits;
    forall i | 0 <= i < |ops| ensures Passes(g, ops[i], |Offered(ops[..i])|) {
      if ops[i].NvWrite? { CapacityPasses(g, |Offered(ops[..i])|, ops[i].x); }
    }
  }

  lemma CapacityPasses(g: Geometry, n: nat, x: Bytes)
    requires g.Ok() && n + (if x == [] then 1 else |x|) + g.blocks * g.meta <= g.limit
    ensures Fits(g, n, x)
  {
    var p, m := g.Payload(), n + if x == [] then 1 else |x|;
    Distribute(g.blocks, p, g.meta);
    assert m <= g.blocks * p;
    CeilAtMost(m, p, g.blocks);
    assert BlocksWith(g, n, x) == CeilDiv(m, p) by {
      if x == [] { assert n + 1 + p - 1 == n + p; DivMod(n / p + 1, p, n % p); assert n + p == (n / p + 1) * p + n % p; }
    }
    MulMonotone(g.meta, CeilDiv(m, p), g.blocks);
  }

  lemma CeilAtMost(n: nat, p: nat, b: nat)
    requires p > 0 && n <= b * p
    ensures CeilDiv(n, p) <= b
  {
    var q := (n + p - 1) / p;
    assert q * p <= n + p - 1;
    assert (b + 1) * p == b * p + p;
    if q > b { MulAtLeast(b + 1, q, p); }
  }
}
