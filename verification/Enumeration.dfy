/** pgstreamenumerate: all objects of a placement group, collected in a hash table of
    chains while the stream is read once, then sorted. */
module Enumeration {
  import opened Keys
  import opened LogSpec
  import opened Flash
  import opened Container
  import opened ContainerProofs
  import opened Lineage
  import opened LogContainer
  import opened Limits
  import opened RoundRobin

  const LOTABLESIZE: nat := 1024

  // -------------------------------------------------------------- order of keys

  /** memcmp of the first n bytes. */
  function Memcmp(a: seq<byte>, b: seq<byte>, n: nat): int
    requires n <= |a| && n <= |b|
  {
    if n == 0 then 0 else if a[0] != b[0] then a[0] - b[0] else Memcmp(a[1..], b[1..], n - 1)
  }

  /** compar: suffixes from the PG on, then counters. */
  function Compar(k0: Key, k1: Key): int
    requires WellFormed(k0) && WellFormed(k1)
  {
    var s0, s1, c0, c1 := Suffix(k0), Suffix(k1), CounterOf(k0), CounterOf(k1);
    if |s0| == |s1| then
      var r := Memcmp(s0, s1, |s0|);
      if r == 0 then (if c0 < c1 then -1 else if c0 == c1 then 0 else 1) else r
    else
      var r := Memcmp(s0, s1, if |s0| < |s1| then |s0| else |s1|);
      if r == 0 then (if |s0| < |s1| then -1 else 1) else r
  }

  /** Lexicographic order of byte strings, a proper prefix first. */
  predicate LexLess(a: seq<byte>, b: seq<byte>) {
    b != [] && (a == [] || a[0] < b[0] || (a[0] == b[0] && LexLess(a[1..], b[1..])))
  }

  /** The order enumeration promises: by (suffix, counter). */
  predicate Before(k0: Key, k1: Key)
    requires WellFormed(k0) && WellFormed(k1)
  {
    LexLess(Suffix(k0), Suffix(k1)) || (Suffix(k0) == Suffix(k1) && CounterOf(k0) < CounterOf(k1))
  }

  lemma {:induction false} MemcmpLex(a: seq<byte>, b: seq<byte>, n: nat)
    requires n <= |a| && n <= |b| && (n == |a| || n == |b|)
    ensures Memcmp(a, b, n) < 0 ==> LexLess(a, b)
    ensures Memcmp(a, b, n) > 0 ==> LexLess(b, a)
    ensures Memcmp(a, b, n) == 0 ==> (LexLess(a, b) <==> |a| < |b|) && (LexLess(b, a) <==> |b| < |a|)
    ensures Memcmp(a, b, n) == 0 && |a| == |b| ==> a == b
  {
    if n > 0 && a[0] == b[0] {
      MemcmpLex(a[1..], b[1..], n - 1);
      assert a == [a[0]] + a[1..] && b == [b[0]] + b[1..];
    }
  }

  lemma {:induction false} LexIrreflexive(a: seq<byte>)
    ensures !LexLess(a, a)
  {
    if a != [] { LexIrreflexive(a[1..]); }
  }

  lemma {:induction false} LexTransitive(a: seq<byte>, b: seq<byte>, c: seq<byte>)
    requires LexLess(a, b) && LexLess(b, c)
    ensures LexLess(a, c)
  {
    if a != [] && a[0] == b[0] == c[0] { LexTransitive(a[1..], b[1..], c[1..]); }
  }

  lemma {:induction false} LexTotal(a: seq<byte>, b: seq<byte>)
    ensures a == b || LexLess(a, b) || LexLess(b, a)
  {
    if a != [] && b != [] && a[0] == b[0] {
      LexTotal(a[1..], b[1..]);
      assert a == [a[0]] + a[1..] && b == [b[0]] + b[1..];
    }
  }

  /** compar decides exactly the promised order. */
  lemma ComparIs(k0: Key, k1: Key)
    requires WellFormed(k0) && WellFormed(k1)
    ensures Compar(k0, k1) < 0 <==> Before(k0, k1)
    ensures Compar(k0, k1) > 0 <==> Before(k1, k0)
    ensures Compar(k0, k1) == 0 <==> Suffix(k0) == Suffix(k1) && CounterOf(k0) == CounterOf(k1)
  {
    hide DigitRun, CounterOf, LexLess, Memcmp;
    var a, b := Suffix(k0), Suffix(k1);
    MemcmpLex(a, b, if |a| < |b| then |a| else |b|);
    LexIrreflexive(a);
    if LexLess(a, b) && LexLess(b, a) { LexTransitive(a, b, a); }
  }

  lemma BeforeTransitive(k0: Key, k1: Key, k2: Key)
    requires WellFormed(k0) && WellFormed(k1) && WellFormed(k2)
    requires !Before(k1, k0) && !Before(k2, k1)
    ensures !Before(k2, k0)
  {
    hide DigitRun, CounterOf, LexLess;
    var a, b, c := Suffix(k0), Suffix(k1), Suffix(k2);
    LexTotal(a, b);
    LexTotal(b, c);
    LexIrreflexive(a);
    if LexLess(a, b) && LexLess(b, c) { LexTransitive(a, b, c); }
    if LexLess(c, a) && LexLess(a, b) { LexTransitive(c, a, b); }
    if LexLess(c, a) && LexLess(a, c) { LexTransitive(c, a, c); LexIrreflexive(c); }
    if LexLess(b, c) && LexLess(c, a) { LexTransitive(b, c, a); }
    if LexLess(a, b) && LexLess(b, a) { LexTransitive(a, b, a); }
    if LexLess(b, c) && LexLess(c, b) { LexTransitive(b, c, b); LexIrreflexive(b); }
  }

  /** Different keys never compare equal, unless a counter overflows its word. */
  lemma DistinctKeysOrdered(k0: Key, k1: Key)
    requires WellFormed(k0) && WellFormed(k1) && Canon(k0) != Canon(k1)
    requires FullCounter(k0) < WORD && FullCounter(k1) < WORD
    ensures Compar(k0, k1) != 0
  {
    ComparIs(k0, k1);
    if Compar(k0, k1) == 0 { CounterAndSuffixDetermine(k0, k1); }
  }

  /** The key whose counter is one full word larger. */
  function Overflowed(k: Key): Key
    requires WellFormed(k)
  {
    Printed(FullCounter(k) + WORD) + [SEPARATOR] + Suffix(k)
  }

  lemma {:induction false} TensSum(d: nat)
    ensures Tens(d) + WORD <= Tens(d + 20)
  {
    if d == 0 {
      assert Tens(2) == 100 && Tens(4) == 100 * Tens(2) && Tens(6) == 100 * Tens(4);
      assert Tens(8) == 100 * Tens(6) && Tens(10) == 100 * Tens(8) && Tens(12) == 100 * Tens(10);
      assert Tens(14) == 100 * Tens(12) && Tens(16) == 100 * Tens(14) && Tens(18) == 100 * Tens(16);
      assert Tens(20) == 100 * Tens(18);
    } else {
      TensSum(d - 1);
    }
  }

  lemma OverflowedLength(k: Key)
    requires WellFormed(k)
    ensures |Overflowed(k)| <= |k| + 20
  {
    hide Tens;
    var d := DigitRun(k);
    DecimalBelow(k[..d]);
    TensSum(d);
    PrintedLength(FullCounter(k) + WORD, d + 20);
  }

  /** For every key there is a different one that compar cannot tell from it. */
  lemma OverflowedKeysTie(k: Key)
    requires WellFormed(k)
    ensures WellFormed(Overflowed(k)) && Canon(Overflowed(k)) != Canon(k) && Compar(k, Overflowed(k)) == 0
    ensures |Overflowed(k)| <= |k| + 20
  {
    hide DigitRun, Decimal, Canon, Compar;
    OverflowedLength(k);
    var k', digits := Overflowed(k), Printed(FullCounter(k) + WORD);
    PrintedDecimal(FullCounter(k) + WORD);
    DigitRunIs(k', |digits|);
    assert k'[..|digits|] == digits && k'[|digits| + 1..] == Suffix(k);
    assert FullCounter(k') == FullCounter(k) + WORD;
    ModShift(FullCounter(k), 1);
    ComparIs(k, k');
    if Canon(k') == Canon(k) { EqualKeysAgree(k, k'); }
  }

  // -------------------------------------------------------------- chains

  /** Position of a canonical key in a chain, or the chain's length. */
  function Find(chain: Log, ck: Key): (i: nat)
    ensures i <= |chain|
    ensures i < |chain| ==> Canon(chain[i].key) == ck
    ensures forall j | 0 <= j < i :: Canon(chain[j].key) != ck
  {
    if chain == [] || Canon(chain[0].key) == ck then 0 else 1 + Find(chain[1..], ck)
  }

  /** A WRITE replaces the record of its key, or starts a new link at the head. */
  function ChainPut(chain: Log, r: Record): Log {
    var i := Find(chain, Canon(r.key));
    if i < |chain| then chain[i := r] else [r] + chain
  }

  /** A DELETE unlinks the record of its key. */
  function ChainRemove(chain: Log, k: Key): Log {
    var i := Find(chain, Canon(k));
    if i < |chain| then chain[..i] + chain[i + 1..] else chain
  }

  ghost predicate ChainDistinct(chain: Log) {
    forall i, j | 0 <= i < j < |chain| :: Canon(chain[i].key) != Canon(chain[j].key)
  }

  /** The chain of one bucket holds exactly the visible objects that hash to it. */
  ghost predicate ChainOk(chain: Log, bucket: nat, log: Log, p: Pg, trim: nat) {
    && ChainDistinct(chain)
    && (forall r | r in chain :: Visible(r, bucket, log, p, trim))
    && forall k: Key | WellFormed(k) && PgOf(k) == p && CounterOf(k) % LOTABLESIZE == bucket &&
                       Seen(log, k, trim).Some? :: Find(chain, Canon(k)) < |chain|
  }

  ghost predicate Visible(r: Record, bucket: nat, log: Log, p: Pg, trim: nat) {
    RecordOk(r) && PgOf(r.key) == p && r.counter % LOTABLESIZE == bucket && Seen(log, r.key, trim) == Some(r.data)
  }

  lemma FindIs(chain: Log, i: nat)
    requires ChainDistinct(chain) && i < |chain|
    ensures Find(chain, Canon(chain[i].key)) == i
  {
    var j := Find(chain, Canon(chain[i].key));
    assert j <= i;
  }

  lemma ChainPutOk(chain: Log, bucket: nat, log: Log, p: Pg, trim: nat, r: Record)
    requires ChainOk(chain, bucket, log, p, trim)
    requires RecordOk(r) && r.kind.Write? && PgOf(r.key) == p && !Trimmed(trim, r.counter) && r.counter % LOTABLESIZE == bucket
    ensures ChainOk(ChainPut(chain, r), bucket, log + [r], p, trim)
  {
    hide RecordOk, Seen, Find, Canon;
    var chain', ck, n := ChainPut(chain, r), Canon(r.key), Find(chain, Canon(r.key));
    assert ChainDistinct(chain');
    forall x | x in chain' ensures Visible(x, bucket, log + [r], p, trim) {
      PutVisible(chain, bucket, log, p, trim, r, x);
    }
    forall k: Key | WellFormed(k) && PgOf(k) == p && CounterOf(k) % LOTABLESIZE == bucket && Seen(log + [r], k, trim).Some?
      ensures Find(chain', Canon(k)) < |chain'|
    {
      SeenSnoc(log, r, k, trim);
      if Canon(k) == ck {
        FindIs(chain', if n < |chain| then n else 0);
      } else {
        var i := Find(chain, Canon(k));
        FindIs(chain', if n < |chain| then i else i + 1);
      }
    }
  }

  lemma PutVisible(chain: Log, bucket: nat, log: Log, p: Pg, trim: nat, r: Record, x: Record)
    requires ChainOk(chain, bucket, log, p, trim) && x in ChainPut(chain, r)
    requires RecordOk(r) && r.kind.Write? && PgOf(r.key) == p && !Trimmed(trim, r.counter) && r.counter % LOTABLESIZE == bucket
    ensures Visible(x, bucket, log + [r], p, trim)
  {
    hide Seen, Find, Canon, DigitRun;
    if x == r {
      SeenSnoc(log, r, r.key, trim);
    } else {
      var n, chain' := Find(chain, Canon(r.key)), ChainPut(chain, r);
      var j :| 0 <= j < |chain'| && chain'[j] == x;
      assert x == chain[if n < |chain| then j else j - 1];
      assert Visible(x, bucket, log, p, trim);
      SeenSnoc(log, r, x.key, trim);
      assert Canon(x.key) != Canon(r.key);
    }
  }

  lemma ChainRemoveOk(chain: Log, bucket: nat, log: Log, p: Pg, trim: nat, r: Record)
    requires ChainOk(chain, bucket, log, p, trim)
    requires RecordOk(r) && r.kind.Delete?
    ensures ChainOk(ChainRemove(chain, r.key), bucket, log + [r], p, trim)
  {
    hide RecordOk, Seen, Find, Canon;
    var chain', ck, n := ChainRemove(chain, r.key), Canon(r.key), Find(chain, Canon(r.key));
    assert ChainDistinct(chain');
    forall x | x in chain' ensures Visible(x, bucket, log + [r], p, trim) {
      RemoveVisible(chain, bucket, log, p, trim, r, x);
    }
    forall k: Key | WellFormed(k) && PgOf(k) == p && CounterOf(k) % LOTABLESIZE == bucket && Seen(log + [r], k, trim).Some?
      ensures Find(chain', Canon(k)) < |chain'|
    {
      SeenSnoc(log, r, k, trim);
      var i := Find(chain, Canon(k));
      FindIs(chain', if i < n then i else if n < |chain| then i - 1 else i);
    }
  }

  lemma RemoveVisible(chain: Log, bucket: nat, log: Log, p: Pg, trim: nat, r: Record, x: Record)
    requires ChainOk(chain, bucket, log, p, trim) && x in ChainRemove(chain, r.key)
    requires RecordOk(r) && r.kind.Delete?
    ensures Visible(x, bucket, log + [r], p, trim)
  {
    hide Seen, Find, Canon, DigitRun;
    var n, chain' := Find(chain, Canon(r.key)), ChainRemove(chain, r.key);
    var j :| 0 <= j < |chain'| && chain'[j] == x;
    assert x == chain[if j < n || n == |chain| then j else j + 1];
    assert Visible(x, bucket, log, p, trim);
    SeenSnoc(log, r, x.key, trim);
    assert Canon(x.key) != Canon(r.key);
  }

  /** Records that change no visible object of the bucket leave its chain right. */
  lemma ChainSkipOk(chain: Log, bucket: nat, log: Log, p: Pg, trim: nat, r: Record)
    requires ChainOk(chain, bucket, log, p, trim) && RecordOk(r)
    requires r.kind.Tombstone? || r.kind.Trim? || PgOf(r.key) != p || Trimmed(trim, r.counter) || r.counter % LOTABLESIZE != bucket
    ensures ChainOk(chain, bucket, log + [r], p, trim)
  {
    hide Find, Canon, DigitRun, Replay;
    forall k: Key | WellFormed(k) && PgOf(k) == p && CounterOf(k) % LOTABLESIZE == bucket
      ensures Seen(log + [r], k, trim) == Seen(log, k, trim)
    {
      SeenSnoc(log, r, k, trim);
      if Canon(r.key) == Canon(k) { EqualKeysAgree(r.key, k); }
    }
    forall x | x in chain ensures Visible(x, bucket, log + [r], p, trim) {
      assert Visible(x, bucket, log, p, trim);
    }
  }

  // -------------------------------------------------------------------- the table

  function Total(tab: seq<Log>): nat {
    if tab == [] then 0 else |tab[0]| + Total(tab[1..])
  }

  lemma {:induction false} TotalUpdate(tab: seq<Log>, b: nat, chain: Log)
    requires b < |tab|
    ensures Total(tab[b := chain]) == Total(tab) - |tab[b]| + |chain|
  {
    var tab' := tab[b := chain];
    if b == 0 {
      assert tab'[1..] == tab[1..];
    } else {
      TotalUpdate(tab[1..], b - 1, chain);
      assert tab'[1..] == tab[1..][b - 1 := chain];
    }
  }

  ghost predicate TableOk(tab: seq<Log>, log: Log, p: Pg, trim: nat) {
    |tab| == LOTABLESIZE && forall b: nat | b < LOTABLESIZE :: ChainOk(tab[b], b, log, p, trim)
  }

  lemma TableSkip(tab: seq<Log>, log: Log, p: Pg, trim: nat, r: Record)
    requires TableOk(tab, log, p, trim) && RecordOk(r)
    requires r.kind.Tombstone? || r.kind.Trim? || PgOf(r.key) != p || Trimmed(trim, r.counter)
    ensures TableOk(tab, log + [r], p, trim)
  {
    hide ChainOk, RecordOk, DigitRun;
    forall b: nat | b < LOTABLESIZE ensures ChainOk(tab[b], b, log + [r], p, trim) {
      ChainSkipOk(tab[b], b, log, p, trim, r);
    }
  }

  lemma TableChange(tab: seq<Log>, log: Log, p: Pg, trim: nat, r: Record, chain: Log)
    requires TableOk(tab, log, p, trim) && RecordOk(r)
    requires ChainOk(chain, r.counter % LOTABLESIZE, log + [r], p, trim)
    ensures TableOk(tab[r.counter % LOTABLESIZE := chain], log + [r], p, trim)
  {
    hide ChainOk, RecordOk;
    var tab' := tab[r.counter % LOTABLESIZE := chain];
    forall b: nat | b < LOTABLESIZE ensures ChainOk(tab'[b], b, log + [r], p, trim) {
      if b != r.counter % LOTABLESIZE { ChainSkipOk(tab[b], b, log, p, trim, r); }
    }
  }

  /** Walk a chain to the link with an equal key. */
  method FindKey(chain: Log, k: Key) returns (i: nat)
    ensures i == Find(chain, Canon(k))
  {
    i := 0;
    while i < |chain|
      invariant i <= |chain| && forall j | 0 <= j < i :: Canon(chain[j].key) != Canon(k)
    {
      var equal := KeyEqual(chain[i].key, k);
      if equal {
        return;
      }
      i := i + 1;
    }
  }

  /** The body of pgstreamenumerate's inner loop: one record, and the object count. */
  method NoteRecord(lo: array<Log>, nobject: nat, r: Record, p: Pg, trim: nat, ghost log: Log) returns (n: nat)
    requires lo.Length == LOTABLESIZE && TableOk(lo[..], log, p, trim) && nobject == Total(lo[..])
    requires RecordOk(r)
    modifies lo
    ensures TableOk(lo[..], log + [r], p, trim) && n == Total(lo[..])
  {
    hide ChainOk, TableOk, Find, Total, DigitRun, Canon;
    n := nobject;
    if r.kind.Tombstone? || r.kind.Trim? {
      TableSkip(lo[..], log, p, trim, r);
      return;
    }
    var _, pgBase, pgLen, counter := KeyDecode(r.key);
    if r.key[pgBase..pgBase + pgLen] != p || Trimmed(trim, counter) {
      TableSkip(lo[..], log, p, trim, r);
      return;
    }
    var b := counter % LOTABLESIZE;
    var chain := lo[b];
    ghost var tab := lo[..];
    var i := FindKey(chain, r.key);
    TotalAtLeast(tab, b);
    assert ChainOk(chain, b, log, p, trim) by { TableAt(tab, log, p, trim, b); }
    if r.kind.Write? {
      ChainPutOk(chain, b, log, p, trim, r);
      if i < |chain| {
        lo[b] := chain[i := r];
      } else {
        lo[b] := [r] + chain;
        n := n + 1;
      }
    } else {
      ChainRemoveOk(chain, b, log, p, trim, r);
      if i < |chain| {
        lo[b] := chain[..i] + chain[i + 1..];
        n := n - 1;
      }
    }
    assert lo[..] == tab[b := lo[b]];
    TotalUpdate(tab, b, lo[b]);
    TableChange(tab, log, p, trim, r, lo[b]);
  }

  lemma TableAt(tab: seq<Log>, log: Log, p: Pg, trim: nat, b: nat)
    requires TableOk(tab, log, p, trim) && b < LOTABLESIZE
    ensures ChainOk(tab[b], b, log, p, trim)
  {}

  lemma {:induction false} TotalAtLeast(tab: seq<Log>, b: nat)
    requires b < |tab|
    ensures |tab[b]| <= Total(tab)
  {
    if b > 0 { TotalAtLeast(tab[1..], b - 1); }
  }

  method NoteSo(lo: array<Log>, nobject: nat, so: Log, p: Pg, trim: nat, ghost log: Log) returns (n: nat)
    requires lo.Length == LOTABLESIZE && TableOk(lo[..], log, p, trim) && nobject == Total(lo[..])
    requires LogOk(so)
    modifies lo
    ensures TableOk(lo[..], log + so, p, trim) && n == Total(lo[..])
  {
    hide TableOk, Total, RecordOk;
    n := nobject;
    assert log + so[..0] == log;
    for i := 0 to |so|
      invariant TableOk(lo[..], log + so[..i], p, trim) && n == Total(lo[..])
    {
      assert RecordOk(so[i]);
      n := NoteRecord(lo, n, so[i], p, trim, log + so[..i]);
      assert (log + so[..i]) + [so[i]] == log + so[..i + 1];
    }
    assert so[..|so|] == so;
  }

  // ------------------------------------------------------------------ the result

  /** A list of exactly the visible objects of a PG, each key once. */
  ghost predicate Lists(objs: Log, log: Log, p: Pg, trim: nat) {
    && ChainDistinct(objs)
    && (forall r | r in objs :: RecordOk(r) && PgOf(r.key) == p && Seen(log, r.key, trim) == Some(r.data))
    && forall k: Key | WellFormed(k) && PgOf(k) == p && Seen(log, k, trim).Some? :: Find(objs, Canon(k)) < |objs|
  }

  function Flatten(tab: seq<Log>): Log {
    if tab == [] then [] else Flatten(tab[..|tab| - 1]) + tab[|tab| - 1]
  }

  lemma {:induction false} FlattenTotal(tab: seq<Log>)
    ensures |Flatten(tab)| == Total(tab)
  {
    if tab != [] {
      FlattenTotal(tab[..|tab| - 1]);
      TotalSnoc(tab[..|tab| - 1], tab[|tab| - 1]);
      assert tab == tab[..|tab| - 1] + [tab[|tab| - 1]];
    }
  }

  lemma {:induction false} TotalSnoc(tab: seq<Log>, chain: Log)
    ensures Total(tab + [chain]) == Total(tab) + |chain|
  {
    if tab == [] {
      assert tab + [chain] == [chain];
      assert [chain][1..] == [];
    } else {
      TotalSnoc(tab[1..], chain);
      assert (tab + [chain])[1..] == tab[1..] + [chain];
    }
  }

  /** The chains of the first buckets list the visible objects that hash there. */
  ghost predicate ListsBelow(objs: Log, n: nat, log: Log, p: Pg, trim: nat) {
    && ChainDistinct(objs)
    && (forall r | r in objs ::
          RecordOk(r) && PgOf(r.key) == p && r.counter % LOTABLESIZE < n && Seen(log, r.key, trim) == Some(r.data))
    && forall k: Key | WellFormed(k) && PgOf(k) == p && CounterOf(k) % LOTABLESIZE < n && Seen(log, k, trim).Some? ::
         Find(objs, Canon(k)) < |objs|
  }

  lemma ListsStep(objs: Log, chain: Log, n: nat, log: Log, p: Pg, trim: nat)
    requires ListsBelow(objs, n, log, p, trim) && ChainOk(chain, n, log, p, trim)
    ensures ListsBelow(objs + chain, n + 1, log, p, trim)
  {
    hide Seen, Find, Canon, DigitRun;
    var all := objs + chain;
    forall i, j | 0 <= i < j < |all| ensures Canon(all[i].key) != Canon(all[j].key) {
      if i < |objs| <= j {
        assert all[i] in objs && all[j] in chain;
        assert Visible(chain[j - |objs|], n, log, p, trim);
        if Canon(all[i].key) == Canon(all[j].key) { EqualKeysAgree(all[i].key, all[j].key); }
      }
    }
    forall r | r in all
      ensures RecordOk(r) && PgOf(r.key) == p && r.counter % LOTABLESIZE < n + 1 && Seen(log, r.key, trim) == Some(r.data)
    {
      if r in chain { assert Visible(r, n, log, p, trim); } else { assert r in objs; }
    }
    forall k: Key | WellFormed(k) && PgOf(k) == p && CounterOf(k) % LOTABLESIZE < n + 1 && Seen(log, k, trim).Some?
      ensures Find(all, Canon(k)) < |all|
    {
      if CounterOf(k) % LOTABLESIZE < n {
        FindIs(all, Find(objs, Canon(k)));
      } else {
        FindIs(all, |objs| + Find(chain, Canon(k)));
      }
    }
  }

  /** Gather the chains, bucket by bucket. */
  method Gather(lo: array<Log>, ghost log: Log, p: Pg, trim: nat) returns (objs: Log)
    requires lo.Length == LOTABLESIZE && TableOk(lo[..], log, p, trim)
    ensures Lists(objs, log, p, trim) && |objs| == Total(lo[..])
  {
    hide ChainOk, Seen, Total, Find, Canon, DigitRun, Flatten;
    objs := [];
    FlattenNothing(lo[..]);
    for b := 0 to LOTABLESIZE
      invariant ListsBelow(objs, b, log, p, trim) && objs == Flatten(lo[..][..b])
    {
      TableAt(lo[..], log, p, trim, b);
      ListsStep(objs, lo[b], b, log, p, trim);
      FlattenSnoc(lo[..], b);
      objs := objs + lo[b];
    }
    assert lo[..][..LOTABLESIZE] == lo[..];
    FlattenTotal(lo[..]);
  }

  lemma FlattenNothing(tab: seq<Log>)
    ensures Flatten(tab[..0]) == []
  {}

  lemma FlattenSnoc(tab: seq<Log>, b: nat)
    requires b < |tab|
    ensures Flatten(tab[..b + 1]) == Flatten(tab[..b]) + tab[b]
  {
    assert tab[..b + 1][..b] == tab[..b];
  }

  // ------------------------------------------------------------------ sorting

  ghost predicate Sorted(objs: Log) {
    && (forall i | 0 <= i < |objs| :: WellFormed(objs[i].key))
    && forall i, j | 0 <= i < j < |objs| :: !Before(objs[j].key, objs[i].key)
  }

  /** Insert a record where compar puts it. */
  method Insert(objs: Log, r: Record) returns (out: Log)
    requires Sorted(objs) && WellFormed(r.key) && ChainDistinct(objs) && Unlisted(objs, r)
    ensures Sorted(out) && ChainDistinct(out) && multiset(out) == multiset(objs) + multiset{r}
  {
    hide WellFormed, Before, ChainDistinct, Unlisted, Sorted;
    var i := InsertPoint(objs, r);
    InsertSorted(objs, r, i);
    InsertDistinct(objs, r, i);
    out := objs[..i] + [r] + objs[i..];
    assert objs == objs[..i] + objs[i..];
  }

  method InsertPoint(objs: Log, r: Record) returns (i: nat)
    requires Sorted(objs) && WellFormed(r.key)
    ensures i <= |objs| && (i > 0 ==> !Before(r.key, objs[i - 1].key))
    ensures forall j | i <= j < |objs| :: WellFormed(objs[j].key) && Before(r.key, objs[j].key)
    ensures i > 0 ==> WellFormed(objs[i - 1].key)
  {
    hide WellFormed, Before, Compar;
    i := |objs|;
    while i > 0 && Compar(objs[i - 1].key, r.key) > 0
      invariant 0 <= i <= |objs|
      invariant forall j | i <= j < |objs| :: Before(r.key, objs[j].key)
    {
      ComparIs(objs[i - 1].key, r.key);
      i := i - 1;
    }
    if i > 0 { ComparIs(objs[i - 1].key, r.key); }
  }

  lemma InsertSorted(objs: Log, r: Record, i: nat)
    requires Sorted(objs) && WellFormed(r.key) && i <= |objs|
    requires forall j | i <= j < |objs| :: Before(r.key, objs[j].key)
    requires i > 0 ==> !Before(r.key, objs[i - 1].key)
    ensures Sorted(objs[..i] + [r] + objs[i..])
  {
    hide WellFormed, Before;
    var out := objs[..i] + [r] + objs[i..];
    forall a, b | 0 <= a < b < |out| ensures !Before(out[b].key, out[a].key) {
      if a < i && b == i {
        if a < i - 1 { BeforeTransitive(objs[a].key, objs[i - 1].key, r.key); }
      } else if a == i {
        BeforeAsymmetric(r.key, out[b].key);
      }
    }
  }

  lemma BeforeAsymmetric(k0: Key, k1: Key)
    requires WellFormed(k0) && WellFormed(k1) && Before(k0, k1)
    ensures !Before(k1, k0)
  {
    ComparIs(k0, k1);
  }

  ghost predicate Unlisted(objs: Log, r: Record) {
    forall i | 0 <= i < |objs| :: Canon(objs[i].key) != Canon(r.key)
  }

  lemma InsertDistinct(objs: Log, r: Record, i: nat)
    requires ChainDistinct(objs) && i <= |objs| && Unlisted(objs, r)
    ensures ChainDistinct(objs[..i] + [r] + objs[i..])
  {
    hide Canon;
    var out := objs[..i] + [r] + objs[i..];
    forall a, b | 0 <= a < b < |out| ensures Canon(out[a].key) != Canon(out[b].key) {
      if a == i {
        assert out[b] == objs[b - 1];
      } else if b == i {
        assert out[a] == objs[a];
      } else {
        var a', b' := if a < i then a else a - 1, if b < i then b else b - 1;
        assert out[a] == objs[a'] && out[b] == objs[b'];
      }
    }
  }

  /** Sort by compar, as qsort does here. */
  method SortObjects(objs: Log) returns (out: Log)
    requires ChainDistinct(objs) && forall i | 0 <= i < |objs| :: WellFormed(objs[i].key)
    ensures Sorted(out) && ChainDistinct(out) && multiset(out) == multiset(objs) && |out| == |objs|
  {
    assert Sorted([]) && ChainDistinct([]);
    hide WellFormed, Before, Canon, Find, Sorted, ChainDistinct, Unlisted;
    out := [];
    for i := 0 to |objs|
      invariant Sorted(out) && ChainDistinct(out) && multiset(out) == multiset(objs[..i])
    {
      var r := objs[i];
      assert objs[..i + 1] == objs[..i] + [r];
      PrefixUnlisted(objs, i);
      NotFound(out, objs[..i], r);
      out := Insert(out, r);
    }
    assert objs[..|objs|] == objs;
    assert |multiset(out)| == |multiset(objs)|;
  }

  lemma PrefixUnlisted(objs: Log, i: nat)
    requires ChainDistinct(objs) && i < |objs|
    ensures Unlisted(objs[..i], objs[i])
  {}

  lemma NotFound(out: Log, objs: Log, r: Record)
    requires multiset(out) == multiset(objs) && Unlisted(objs, r)
    ensures Unlisted(out, r)
  {
    hide Canon;
    forall i | 0 <= i < |out| ensures Canon(out[i].key) != Canon(r.key) {
      assert out[i] in multiset(out) && out[i] in objs;
    }
  }

  lemma ListsPermuted(objs: Log, out: Log, log: Log, p: Pg, trim: nat)
    requires Lists(objs, log, p, trim) && multiset(out) == multiset(objs) && ChainDistinct(out)
    ensures Lists(out, log, p, trim)
  {
    hide Seen, Canon, Find, RecordOk, DigitRun;
    forall r | r in out ensures r in objs { assert r in multiset(out); }
    forall k: Key | WellFormed(k) && PgOf(k) == p && Seen(log, k, trim).Some?
      ensures Find(out, Canon(k)) < |out|
    {
      var r := objs[Find(objs, Canon(k))];
      assert r in multiset(objs) && r in out;
      var i :| 0 <= i < |out| && out[i] == r;
      FindIs(out, i);
    }
  }

  /** In the sorted list, keys strictly increase unless two counters collide in their word. */
  lemma StrictlyIncreasing(objs: Log)
    requires Sorted(objs) && ChainDistinct(objs)
    requires forall i | 0 <= i < |objs| :: FullCounter(objs[i].key) < WORD
    ensures forall i, j | 0 <= i < j < |objs| :: Before(objs[i].key, objs[j].key)
  {
    hide WellFormed, Before, Canon, Compar, FullCounter;
    forall i, j | 0 <= i < j < |objs| ensures Before(objs[i].key, objs[j].key) {
      DistinctKeysOrdered(objs[i].key, objs[j].key);
      ComparIs(objs[i].key, objs[j].key);
    }
  }

  // ------------------------------------------------------------ pgstreamenumerate

  /** Read the stream of a PG once, and return its objects in order. */
  method PgStreamEnumerate(c: Lc, p: Pg) returns (objs: Log)
    requires c.Valid() && p in c.pgs && c.pgs[p].stream in c.streams
    ensures Lists(objs, LogOf(All(c.OnDisk()), c.pgs[p].stream), p, c.pgs[p].trim)
    ensures Sorted(objs)
  {
    hide Inv, All, TableOk, Lists, Total, LogOf, RecordOk, Seen;
    var s := c.pgs[p].stream;
    var x, trim := c.streams[s], c.pgs[p].trim;
    ScanStart(c.St(), s, c.history);
    var lo := new Log[LOTABLESIZE](_ => []);
    EmptyTable(lo[..], p, trim);
    var nobject := 0;
    for n := x.seqOldest to x.seqNext
      invariant TableOk(lo[..], UpTo(c.flash, s, n), p, trim) && nobject == Total(lo[..])
    {
      SoOk(c.St(), s, n, c.history);
      nobject := NoteSo(lo, nobject, c.flash[SoId(s, n)], p, trim, UpTo(c.flash, s, n));
    }
    nobject := NoteSo(lo, nobject, x.buf, p, trim, UpTo(c.flash, s, x.seqNext));
    InvParts(c.St(), c.history);
    StreamLogIs(c.St(), s);
    var found := Gather(lo, LogOf(All(c.OnDisk()), s), p, trim);
    ListsKeys(found, LogOf(All(c.OnDisk()), s), p, trim);
    objs := SortObjects(found);
    ListsPermuted(found, objs, LogOf(All(c.OnDisk()), s), p, trim);
  }

  lemma ListsKeys(objs: Log, log: Log, p: Pg, trim: nat)
    requires Lists(objs, log, p, trim)
    ensures ChainDistinct(objs) && forall i | 0 <= i < |objs| :: WellFormed(objs[i].key)
  {
    forall i | 0 <= i < |objs| ensures WellFormed(objs[i].key) { assert objs[i] in objs; }
  }

  lemma EmptyTable(tab: seq<Log>, p: Pg, trim: nat)
    requires |tab| == LOTABLESIZE && forall b | 0 <= b < |tab| :: tab[b] == []
    ensures TableOk(tab, [], p, trim) && Total(tab) == 0
  {
    forall b: nat | b < LOTABLESIZE ensures ChainOk(tab[b], b, [], p, trim) {
      forall k: Key ensures Seen([], k, trim) == None { SeenNothing(k, trim); }
    }
    TotalZero(tab);
  }

  lemma {:induction false} TotalZero(tab: seq<Log>)
    requires forall b | 0 <= b < |tab| :: tab[b] == []
    ensures Total(tab) == 0
  {
    if tab != [] { TotalZero(tab[1..]); }
  }

  /** Enumeration agrees with reading: an object is listed, with its data, exactly when a
      read of its key finds it. */
  lemma EnumerationAgrees(c: Lc, objs: Log, k: Key)
    requires c.Valid() && WellFormed(k) && PgOf(k) in c.pgs && c.pgs[PgOf(k)].stream in c.streams
    requires Lists(objs, LogOf(All(c.OnDisk()), c.pgs[PgOf(k)].stream), PgOf(k), c.pgs[PgOf(k)].trim)
    ensures var read := Lookup(Replay(LogOf(All(c.OnDisk()), c.pgs[PgOf(k)].stream)), k);
            && (read.Some? <==> exists i | 0 <= i < |objs| :: Canon(objs[i].key) == Canon(k))
            && (forall i | 0 <= i < |objs| && Canon(objs[i].key) == Canon(k) :: read == Some(objs[i].data))
    ensures CounterOf(k) != UNKNOWN ==>
              Lookup(Replay(LogOf(All(c.OnDisk()), c.pgs[PgOf(k)].stream)), k) == Lookup(Replay(c.history), k)
  {
    hide Inv, All, LogOf, Lookup, Replay, Find, Canon, RecordOk, Seen;
    var p := PgOf(k);
    var log, trim := LogOf(All(c.OnDisk()), c.pgs[p].stream), c.pgs[p].trim;
    InvParts(c.St(), c.history);
    StreamLogIs(c.St(), c.pgs[p].stream);
    SeenIsLookup(c.St(), p, k, c.history);
    forall i | 0 <= i < |objs| && Canon(objs[i].key) == Canon(k)
      ensures Seen(log, k, trim) == Some(objs[i].data)
    {
      assert objs[i] in objs;
      SameSeen(log, objs[i].key, k, trim);
    }
    if Seen(log, k, trim).Some? {
      var i := Find(objs, Canon(k));
      assert Canon(objs[i].key) == Canon(k);
    }
    if CounterOf(k) != UNKNOWN { ReadHome(All(c.OnDisk()), HomeOf(c.pgs), c.history, k); }
  }

  lemma SameSeen(log: Log, k0: Key, k1: Key, trim: nat)
    requires WellFormed(k1) && Canon(k0) == Canon(k1) && (exists r :: RecordOk(r) && r.key == k0)
    ensures Seen(log, k0, trim) == Seen(log, k1, trim)
  {
    var r :| RecordOk(r) && r.key == k0;
    EqualKeysAgree(k0, k1);
  }

  // ------------------------------------------------------------------- lc_enum_start

  /** The objects list a key as a read finds it. */
  ghost predicate ListedAs(objs: Log, k: Key, read: Option<seq<byte>>) {
    && (read.Some? <==> exists i | 0 <= i < |objs| :: Canon(objs[i].key) == Canon(k))
    && (forall i | 0 <= i < |objs| && Canon(objs[i].key) == Canon(k) :: read == Some(objs[i].data))
  }

  /** The objects of a PG, each once and in order, as the history has them; nothing is said of
      the keys whose counter is the all-ones word. */
  ghost predicate Listing(objs: Log, history: Log, p: Pg) {
    && Sorted(objs) && ChainDistinct(objs) && (forall r | r in objs :: WellFormed(r.key) && PgOf(r.key) == p)
    && forall k: Key | WellFormed(k) && PgOf(k) == p && CounterOf(k) != UNKNOWN ::
         ListedAs(objs, k, Lookup(Replay(history), k))
  }

  /** lc_enum_start for the PG of a key, with all that lc_enum_next then returns. */
  method LcEnumerate(c: Lc, k: Key) returns (status: Status, objs: Log)
    requires c.Valid()
    modifies c`pgs, c`hand
    ensures c.Valid() && c.history == old(c.history) && c.trace == old(c.trace) && c.OnDisk() == old(c.OnDisk())
    ensures status.Ok? <==> |k| < BYTES_PER_LOGGING_OBJECT && WellFormed(k)
    ensures if status.Ok? then Listing(objs, c.history, PgOf(k)) else objs == []
    ensures status.TooLong? <==> |k| >= BYTES_PER_LOGGING_OBJECT
    ensures status.Bad? <==> |k| < BYTES_PER_LOGGING_OBJECT && !WellFormed(k)
    ensures Deals(old(c.St()), c.St())
  {
    hide Inv, Lists, Listing, All, LogOf, Descends, Dealt;
    c.HandOk();
    DealtNone(c.St(), c.St());
    objs := [];
    var decoded, pgBase, pgLen, _ := KeyDecode(k);
    if decoded.KeyTooLong? {
      return TooLong, [];
    } else if decoded.BadKey? {
      return Bad, [];
    }
    var p := k[pgBase..pgBase + pgLen];
    c.PgLookup(p);
    objs := PgStreamEnumerate(c, p);
    ListingIs(c, p, objs);
    status := Ok;
  }

  lemma ListingIs(c: Lc, p: Pg, objs: Log)
    requires c.Valid() && p in c.pgs && c.pgs[p].stream in c.streams && Sorted(objs)
    requires Lists(objs, LogOf(All(c.OnDisk()), c.pgs[p].stream), p, c.pgs[p].trim)
    ensures Listing(objs, c.history, p)
  {
    hide Inv, All, LogOf, Lookup, Replay, Canon, RecordOk, Seen, Sorted, Descends;
    forall k: Key | WellFormed(k) && PgOf(k) == p && CounterOf(k) != UNKNOWN
      ensures ListedAs(objs, k, Lookup(Replay(c.history), k))
    {
      EnumerationAgrees(c, objs, k);
    }
    forall r | r in objs ensures WellFormed(r.key) { assert RecordOk(r); RecordKey(r); }
  }

  lemma RecordKey(r: Record)
    requires RecordOk(r)
    ensures WellFormed(r.key)
  {}

  /** The same key, up to leading zeros, and the same data. */
  ghost predicate SameObject(x: Record, y: Record) { Canon(x.key) == Canon(y.key) && x.data == y.data }

  ghost predicate Has(objs: Log, r: Record) { exists j | 0 <= j < |objs| :: SameObject(objs[j], r) }

  /** Neither reclamation nor recovery changes a listing: two listings of a PG from the same
      history hold the same objects under known counters. */
  lemma ListingsAgree(a: Log, b: Log, history: Log, p: Pg, i: nat)
    requires Listing(a, history, p) && Listing(b, history, p) && i < |a| && CounterOf(a[i].key) != UNKNOWN
    ensures Has(b, a[i])
  {
    hide Canon, Lookup, Replay, Sorted;
    assert a[i] in a;
    assert ListedAs(a, a[i].key, Lookup(Replay(history), a[i].key));
    assert ListedAs(b, a[i].key, Lookup(Replay(history), a[i].key));
    var j :| 0 <= j < |b| && Canon(b[j].key) == Canon(a[i].key);
    assert SameObject(b[j], a[i]);
  }

  /** Every object of `a` is in `b`. */
  ghost predicate Within(a: Log, b: Log) {
    forall i | 0 <= i < |a| :: Has(b, a[i])
  }

  /** No counter of the list overflows, or is the all-ones word. */
  ghost predicate Plain(objs: Log) {
    forall i | 0 <= i < |objs| :: WellFormed(objs[i].key) && FullCounter(objs[i].key) < UNKNOWN
  }

  lemma BeforeCanon(k0: Key, k1: Key, m0: Key, m1: Key)
    requires WellFormed(k0) && WellFormed(k1) && WellFormed(m0) && WellFormed(m1)
    requires Canon(k0) == Canon(m0) && Canon(k1) == Canon(m1)
    ensures Before(k0, k1) <==> Before(m0, m1)
  {
    hide LexLess, DigitRun, Canon;
    EqualKeysAgree(k0, m0);
    EqualKeysAgree(k1, m1);
  }

  ghost predicate StrictlySorted(objs: Log) {
    && (forall i | 0 <= i < |objs| :: WellFormed(objs[i].key))
    && forall i, j | 0 <= i < j < |objs| :: Before(objs[i].key, objs[j].key)
  }

  lemma SameAt(a: Log, b: Log, i: nat)
    requires StrictlySorted(a) && StrictlySorted(b) && ChainDistinct(a) && ChainDistinct(b)
    requires i < |a| && i <= |b| && Has(b, a[i]) && (i < |b| ==> Has(a, b[i]))
    requires forall m | 0 <= m < i :: SameObject(a[m], b[m])
    ensures i < |b| && SameObject(a[i], b[i])
  {
    hide Canon, Before, WellFormed;
    var j :| 0 <= j < |b| && SameObject(b[j], a[i]);
    assert forall m | 0 <= m < i :: Canon(a[m].key) == Canon(b[m].key) by {
      assert forall m | 0 <= m < i :: SameObject(a[m], b[m]);
    }
    assert i <= j;
    if i < j {
      var m :| 0 <= m < |a| && SameObject(a[m], b[i]);
      assert i < m;
      BeforeCanon(b[i].key, b[j].key, a[m].key, a[i].key);
      BeforeAsymmetric(a[i].key, a[m].key);
    }
  }

  lemma {:induction false} SameOrder(a: Log, b: Log, n: nat)
    requires StrictlySorted(a) && StrictlySorted(b) && ChainDistinct(a) && ChainDistinct(b) && Within(a, b) && Within(b, a)
    requires n <= |a|
    ensures n <= |b| && forall i | 0 <= i < n :: SameObject(a[i], b[i])
  {
    hide SameObject, Has, StrictlySorted, ChainDistinct;
    if n > 0 {
      SameOrder(a, b, n - 1);
      SameAt(a, b, n - 1);
    }
  }

  /** Such listings are the same list, up to leading zeros, when no counter overflows. */
  lemma ListingsEqual(a: Log, b: Log, history: Log, p: Pg)
    requires Listing(a, history, p) && Listing(b, history, p) && Plain(a) && Plain(b)
    ensures |a| == |b| && forall i | 0 <= i < |a| :: SameObject(a[i], b[i])
  {
    hide Listing, StrictlySorted, ChainDistinct, Within, SameObject, Plain;
    ListingOrdered(a, history, p);
    ListingOrdered(b, history, p);
    WithinListing(a, b, history, p);
    WithinListing(b, a, history, p);
    SameOrder(a, b, |a|);
    SameOrder(b, a, |b|);
  }

  lemma SmallCounter(k: Key)
    requires FullCounter(k) < UNKNOWN
    ensures CounterOf(k) != UNKNOWN
  {}

  lemma WithinListing(a: Log, b: Log, history: Log, p: Pg)
    requires Listing(a, history, p) && Listing(b, history, p) && Plain(a)
    ensures Within(a, b)
  {
    hide Listing, Has, FullCounter;
    forall i | 0 <= i < |a| ensures Has(b, a[i]) {
      SmallCounter(a[i].key);
      ListingsAgree(a, b, history, p, i);
    }
  }

  lemma ListingOrdered(a: Log, history: Log, p: Pg)
    requires Listing(a, history, p) && Plain(a)
    ensures StrictlySorted(a) && ChainDistinct(a)
  {
    hide Canon, Before, FullCounter;
    StrictlyIncreasing(a);
  }
}
