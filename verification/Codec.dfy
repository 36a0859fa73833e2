/** The byte layout of logging records and streaming objects, and the link between the
    NVRAM service, which stores bytes, and the container, which appends records. */
module Codec {
  import opened Keys
  import opened LogSpec
  import opened Nvram
  import opened Words

  const LC_MAGIC: int := 0x81F191E1A2C2B292
  /** magic, next, cguid, stream (padded) and seqno. */
  const SO_HEADER: nat := 40

  // ------------------------------------------------------------------ records

  function KindCode(k: Kind): nat {
    match k
    case Tombstone => 0
    case Write => 1
    case Delete => 2
    case Trim => 3
  }

  function KindOf(code: nat): Kind {
    if code == 1 then Write else if code == 2 then Delete else if code == 3 then Trim else Tombstone
  }

  /** A record whose fields fit the words of lrec_t. */
  predicate Storable(r: Record) {
    |r.key| + |r.data| <= BYTES_PER_LOGGING_OBJECT && r.trx < WORD && r.counter < WORD
  }

  function RecordHeader(r: Record): (s: Bytes)
    ensures |s| == LREC_HEADER
  {
    Little(KindCode(r.kind), 2) + Little(|r.key|, 2) + Little(|r.data|, 2) + [0, 0] + Little(r.trx, 8) + Little(r.counter, 8)
  }

  function EncodeRecord(r: Record): (s: Bytes)
    ensures |s| == LrecSize(r)
  {
    RecordHeader(r) + r.key + r.data
  }

  function EncodeLog(log: Log): Bytes {
    if log == [] then [] else EncodeRecord(log[0]) + EncodeLog(log[1..])
  }

  /** The record that starts at `i`: fields by their offsets, lengths from the header. */
  function RecordAt(s: Bytes, i: nat): Option<Record> {
    if i + LREC_HEADER > |s| then None
    else
      var klen, dlen := Word(s[i + 2..i + 4]), Word(s[i + 4..i + 6]);
      var k := i + LREC_HEADER;
      if k + klen + dlen > |s| then None
      else Some(Record(KindOf(Word(s[i..i + 2])), s[k..k + klen], s[k + klen..k + klen + dlen],
                       Word(s[i + 8..i + 16]), Word(s[i + 16..i + 24])))
  }

  lemma HeaderFields(r: Record)
    requires Storable(r)
    ensures var h := RecordHeader(r);
            && Word(h[0..2]) == KindCode(r.kind) && Word(h[2..4]) == |r.key| && Word(h[4..6]) == |r.data|
            && Word(h[8..16]) == r.trx && Word(h[16..24]) == r.counter
  {
    hide Little, Word, Pow256;
    WordSizes();
    WordLittle(KindCode(r.kind), 2);
    WordLittle(|r.key|, 2);
    WordLittle(|r.data|, 2);
    WordLittle(r.trx, 8);
    WordLittle(r.counter, 8);
    var kind, klen, dlen := Little(KindCode(r.kind), 2), Little(|r.key|, 2), Little(|r.data|, 2);
    var trx, counter := Little(r.trx, 8), Little(r.counter, 8);
    HeaderIs(r);
    Parts([], kind, klen + dlen + [0, 0] + trx + counter);
    Parts(kind, klen, dlen + [0, 0] + trx + counter);
    Parts(kind + klen, dlen, [0, 0] + trx + counter);
    Parts(kind + klen + dlen + [0, 0], trx, counter);
    Parts(kind + klen + dlen + [0, 0] + trx, counter, []);
  }

  lemma Parts(a: Bytes, b: Bytes, c: Bytes)
    ensures (a + b + c)[|a|..|a| + |b|] == b
  {}

  /** The header split before each field. */
  lemma HeaderIs(r: Record)
    requires Storable(r)
    ensures var h := RecordHeader(r);
            var kind, klen, dlen := Little(KindCode(r.kind), 2), Little(|r.key|, 2), Little(|r.data|, 2);
            var trx, counter := Little(r.trx, 8), Little(r.counter, 8);
            && h == [] + kind + (klen + dlen + [0, 0] + trx + counter)
            && h == kind + klen + (dlen + [0, 0] + trx + counter)
            && h == (kind + klen) + dlen + ([0, 0] + trx + counter)
            && h == (kind + klen + dlen + [0, 0]) + trx + counter
            && h == (kind + klen + dlen + [0, 0] + trx) + counter + []
  {
    hide Little;
  }

  /** A record is read back wherever it lies. */
  lemma RecordRoundTrip(before: Bytes, r: Record, after: Bytes)
    requires Storable(r)
    ensures RecordAt(before + EncodeRecord(r) + after, |before|) == Some(r)
  {
    hide Word, RecordHeader;
    var i, s, h := |before|, before + EncodeRecord(r) + after, RecordHeader(r);
    HeaderFields(r);
    var k := i + LREC_HEADER;
    assert s[i..i + 2] == h[0..2] && s[i + 2..i + 4] == h[2..4] && s[i + 4..i + 6] == h[4..6];
    assert s[i + 8..i + 16] == h[8..16] && s[i + 16..i + 24] == h[16..24];
    assert s[k..k + |r.key|] == r.key;
    assert s[k + |r.key|..k + |r.key| + |r.data|] == r.data;
  }

  lemma {:induction false} EncodeSnoc(log: Log, r: Record)
    ensures EncodeLog(log + [r]) == EncodeLog(log) + EncodeRecord(r)
  {
    hide EncodeRecord;
    var both := log + [r];
    assert EncodeLog(both) == EncodeRecord(both[0]) + EncodeLog(both[1..]);
    if log == [] {
      assert both[1..] == [] && EncodeLog([]) == [];
    } else {
      EncodeSnoc(log[1..], r);
      assert both[1..] == log[1..] + [r];
    }
  }

  lemma {:induction false} EncodeSize(log: Log)
    ensures |EncodeLog(log)| == SizeOf(log)
  {
    if log != [] {
      var l, r := log[..|log| - 1], log[|log| - 1];
      EncodeSize(l);
      EncodeSnoc(l, r);
      assert log == l + [r];
    }
  }

  /** The scan loop shared by soscan, sostatus and pgstreamscan: records one after another,
      each as long as its header says. */
  method ParseLog(s: Bytes, ghost log: Log) returns (recs: Log)
    requires s == EncodeLog(log) && forall i | 0 <= i < |log| :: Storable(log[i])
    ensures recs == log
  {
    hide RecordAt, EncodeRecord;
    recs := [];
    var i := 0;
    ghost var n := 0;
    assert log[..0] == [] && log[0..] == log;
    while i < |s|
      invariant 0 <= n <= |log| && recs == log[..n] && i == |EncodeLog(log[..n])| <= |s|
      invariant s == EncodeLog(log[..n]) + EncodeLog(log[n..])
      decreases |s| - i
    {
      ParseStep(s, log, n);
      var r := RecordAt(s, i).value;
      recs := recs + [r];
      i := i + LrecSize(r);
      n := n + 1;
    }
    ParseEnd(s, log, n);
  }

  lemma ParseStep(s: Bytes, log: Log, n: nat)
    requires n <= |log| && s == EncodeLog(log[..n]) + EncodeLog(log[n..]) && |EncodeLog(log[..n])| < |s|
    requires forall i | 0 <= i < |log| :: Storable(log[i])
    ensures n < |log| && RecordAt(s, |EncodeLog(log[..n])|) == Some(log[n])
    ensures log[..n] + [log[n]] == log[..n + 1]
    ensures |EncodeLog(log[..n + 1])| == |EncodeLog(log[..n])| + LrecSize(log[n])
    ensures s == EncodeLog(log[..n + 1]) + EncodeLog(log[n + 1..])
  {
    hide RecordAt, EncodeRecord, Storable;
    var rest := log[n..];
    assert rest != [];
    var before, r, after := EncodeLog(log[..n]), log[n], EncodeLog(log[n + 1..]);
    assert log[n..][0] == r && log[n..][1..] == log[n + 1..];
    assert log[..n + 1] == log[..n] + [r];
    EncodeSnoc(log[..n], r);
    assert s == before + EncodeRecord(r) + after;
    RecordRoundTrip(before, r, after);
  }

  lemma ParseEnd(s: Bytes, log: Log, n: nat)
    requires n <= |log| && s == EncodeLog(log[..n]) + EncodeLog(log[n..]) && |EncodeLog(log[..n])| == |s|
    ensures log[..n] == log
  {
    var rest := log[n..];
    assert |EncodeLog(rest)| == 0 && rest == [];
  }

  // --------------------------------------------------------- streaming objects

  function SoHeader(cguid: nat, stream: nat, seqno: nat): (s: Bytes)
    ensures |s| == SO_HEADER
  {
    Little(LC_MAGIC, 8) + Little(0, 8) + Little(cguid, 8) + Little(stream, 4) + [0, 0, 0, 0] + Little(seqno, 8)
  }

  function EncodeSo(cguid: nat, stream: nat, seqno: nat, recs: Log): Bytes {
    SoHeader(cguid, stream, seqno) + EncodeLog(recs)
  }

  datatype So = NoSo | So(cguid: nat, stream: nat, seqno: nat, recs: Log)

  /** nvinit and nvflush: a buffer holds an SO if it is longer than the header and the magic
      is right. */
  method ParseSo(s: Bytes, ghost cguid: nat, ghost stream: nat, ghost seqno: nat, ghost recs: Log) returns (so: So)
    requires s == [] || s == EncodeSo(cguid, stream, seqno, recs)
    requires cguid < WORD && stream < 0x1_0000_0000 && seqno < WORD && forall i | 0 <= i < |recs| :: Storable(recs[i])
    ensures so == if s == [] || recs == [] then NoSo else So(cguid, stream, seqno, recs)
  {
    hide Little, Word, EncodeLog;
    if |s| <= SO_HEADER {
      assert s == [] || recs == [] by { LongerThanHeader(s, cguid, stream, seqno, recs); }
      return NoSo;
    }
    SoFields(s, cguid, stream, seqno, recs);
    if Word(s[0..8]) != LC_MAGIC {
      return NoSo;
    }
    var found := ParseLog(s[SO_HEADER..], recs);
    so := So(Word(s[16..24]), Word(s[24..28]), Word(s[32..40]), found);
  }

  lemma LongerThanHeader(s: Bytes, cguid: nat, stream: nat, seqno: nat, recs: Log)
    requires (s == [] || s == EncodeSo(cguid, stream, seqno, recs)) && |s| <= SO_HEADER
    ensures s == [] || recs == []
  {
    hide Little;
    if recs != [] { assert |EncodeLog(recs)| >= LREC_HEADER; }
  }

  lemma SoFields(s: Bytes, cguid: nat, stream: nat, seqno: nat, recs: Log)
    requires s == EncodeSo(cguid, stream, seqno, recs) && |s| > SO_HEADER
    requires cguid < WORD && stream < 0x1_0000_0000 && seqno < WORD
    ensures Word(s[0..8]) == LC_MAGIC && Word(s[16..24]) == cguid && Word(s[24..28]) == stream && Word(s[32..40]) == seqno
    ensures s[SO_HEADER..] == EncodeLog(recs) && recs != []
  {
    hide Little, Word, Pow256, EncodeLog;
    WordSizes();
    WordLittle(LC_MAGIC, 8);
    WordLittle(cguid, 8);
    WordLittle(stream, 4);
    WordLittle(seqno, 8);
    assert s[0..8] == Little(LC_MAGIC, 8) && s[16..24] == Little(cguid, 8);
    assert s[24..28] == Little(stream, 4) && s[32..40] == Little(seqno, 8);
    assert EncodeLog([]) == [] by { EncodeNothing(); }
  }

  lemma EncodeNothing()
    ensures EncodeLog([]) == []
  {}

  // ----------------------------------------- records through the NVRAM service

  /** Records written as streamwrite does, the header with the first, come back from a
      restarted NVRAM buffer as the same SO, and none is refused while the SO fits the
      buffer's capacity. */
  method ThroughNvram(b: Buffer, cguid: nat, stream: nat, seqno: nat, recs: Log) returns (so: So)
    requires Settled(b, []) && b.g.Ok() && !b.locked
    requires cguid < WORD && stream < 0x1_0000_0000 && seqno < WORD && forall i | 0 <= i < |recs| :: Storable(recs[i])
    requires SO_HEADER + SizeOf(recs) + b.g.blocks * b.g.meta <= b.g.limit
    modifies b, b.data
    ensures so == if recs == [] then NoSo else So(cguid, stream, seqno, recs)
  {
    hide Settled, Little, EncodeLog, Join, SizeOf, RecordHeader, Storable, Fits;
    ghost var s: Bytes := [];
    EncodeNothing();
    for i := 0 to |recs|
      invariant Settled(b, s) && !b.locked && s == if i == 0 then [] else EncodeSo(cguid, stream, seqno, recs[..i])
    {
      var x := if i == 0 then SoHeader(cguid, stream, seqno) + EncodeRecord(recs[i]) else EncodeRecord(recs[i]);
      EncodeNext(cguid, stream, seqno, recs, i);
      RecordFits(b.g, recs, i, s, x, cguid, stream, seqno);
      var r, _ := PerformNv(b, NvWrite(x), s);
      s := s + x;
    }
    assert recs[..|recs|] == recs;
    var _, y := PerformNv(b, NvRestart, s);
    so := ParseSo(y, cguid, stream, seqno, recs);
  }

  /** The bytes so far and the next record's, with the header before the first. */
  lemma EncodeNext(cguid: nat, stream: nat, seqno: nat, recs: Log, i: nat)
    requires i < |recs|
    ensures EncodeSo(cguid, stream, seqno, recs[..i + 1]) ==
            if i == 0 then [] + (SoHeader(cguid, stream, seqno) + EncodeRecord(recs[0]))
            else EncodeSo(cguid, stream, seqno, recs[..i]) + EncodeRecord(recs[i])
  {
    hide EncodeRecord;
    assert recs[..i + 1] == recs[..i] + [recs[i]];
    EncodeSnoc(recs[..i], recs[i]);
    if i == 0 { assert recs[..0] == []; }
  }

  lemma RecordFits(g: Geometry, recs: Log, i: nat, s: Bytes, x: Bytes, cguid: nat, stream: nat, seqno: nat)
    requires g.Ok() && i < |recs| && s + x == EncodeSo(cguid, stream, seqno, recs[..i + 1])
    requires |EncodeRecord(recs[i])| <= |x|
    requires SO_HEADER + SizeOf(recs) + g.blocks * g.meta <= g.limit
    ensures Fits(g, |s|, x)
  {
    hide EncodeLog, SizeOf, Fits;
    EncodeSize(recs[..i + 1]);
    SizeOfConcat(recs[..i + 1], recs[i + 1..]);
    assert recs[..i + 1] + recs[i + 1..] == recs;
    assert |EncodeRecord(recs[i])| > 0;
    assert |s + x| == |s| + |x|;
    CapacityPasses(g, |s|, x);
  }
}
