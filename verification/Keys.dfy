/** Logging-object keys, as decoded and compared by api/lc.c.

    A client key is `counter_pg_other`: a digit string, a separator, the placement
    group (PG) and, after an optional second separator, a part that group operations
    ignore.  The counter is accumulated in a 64-bit word, so it is the decimal value
    modulo 2^64. */
module Keys {

  type byte = b: int | 0 <= b < 256
  type Key = seq<byte>
  type Pg = seq<byte>

  const SEPARATOR: byte := 0x5F
  const ZERO: byte := 0x30
  const WORD: int := 0x1_0000_0000_0000_0000
  /** COUNTER_UNKNOWN, the all-ones word. */
  const UNKNOWN: int := WORD - 1
  const BYTES_PER_LOGGING_OBJECT: nat := 4000

  datatype KeyStatus = KeyOk | KeyTooLong | BadKey

  predicate IsDigit(b: byte) { 0x30 <= b <= 0x39 }

  /** Length of the leading run of digits. */
  function DigitRun(k: Key): (n: nat)
    ensures n <= |k|
    ensures forall i | 0 <= i < n :: IsDigit(k[i])
    ensures n < |k| ==> !IsDigit(k[n])
  {
    if k == [] || !IsDigit(k[0]) then 0 else 1 + DigitRun(k[1..])
  }

  /** A key that keydecode accepts: digits, then a separator. */
  predicate WellFormed(k: Key) {
    DigitRun(k) < |k| && k[DigitRun(k)] == SEPARATOR
  }

  /** Decimal value of a digit string. */
  function Decimal(s: seq<byte>): (v: nat)
    requires forall i | 0 <= i < |s| :: IsDigit(s[i])
  {
    if s == [] then 0
    else assert IsDigit(s[|s| - 1]); 10 * Decimal(s[..|s| - 1]) + (s[|s| - 1] - 0x30)
  }

  /** The counter before the 64-bit word truncates it. */
  function FullCounter(k: Key): nat { Decimal(k[..DigitRun(k)]) }

  function CounterOf(k: Key): (c: nat)
    ensures c < WORD
  {
    FullCounter(k) % WORD
  }

  /** Everything after the first separator: the PG and the rest. */
  function Suffix(k: Key): seq<byte>
    requires WellFormed(k)
  {
    k[DigitRun(k) + 1..]
  }

  /** Bytes up to the next separator, or to the end. */
  function UpToSeparator(s: seq<byte>): (t: seq<byte>)
    ensures |t| <= |s| && t == s[..|t|]
    ensures SEPARATOR !in t
    ensures |t| < |s| ==> s[|t|] == SEPARATOR
  {
    if s == [] || s[0] == SEPARATOR then []
    else [s[0]] + UpToSeparator(s[1..])
  }

  function PgOf(k: Key): Pg
    requires WellFormed(k)
  {
    UpToSeparator(Suffix(k))
  }

  /** The key with leading zeros of its counter removed. */
  function Canon(k: Key): Key {
    if k != [] && k[0] == ZERO then Canon(k[1..]) else k
  }

  // ---------------------------------------------------------------- keydecode

  lemma DigitRunIs(k: Key, n: nat)
    requires n <= |k|
    requires forall i | 0 <= i < n :: IsDigit(k[i])
    requires n < |k| ==> !IsDigit(k[n])
    ensures DigitRun(k) == n
  {
    var m := DigitRun(k);
    assert m < |k| ==> !IsDigit(k[m]);
  }

  lemma DecimalStep(s: seq<byte>, n: nat)
    requires n < |s|
    requires forall i | 0 <= i <= n :: IsDigit(s[i])
    ensures Decimal(s[..n + 1]) == 10 * Decimal(s[..n]) + (s[n] - 0x30)
  {
    assert s[..n + 1][..n] == s[..n];
  }

  /** One truncated multiply-and-add agrees with the untruncated one. */
  lemma WrapStep(v: nat, d: nat)
    ensures (10 * (v % WORD) + d) % WORD == (10 * v + d) % WORD
  {
    var q := v / WORD;
    assert 10 * v + d == 10 * (v % WORD) + d + (10 * q) * WORD;
    ModShift(10 * (v % WORD) + d, 10 * q);
  }

  lemma {:induction false} ModShift(a: nat, q: nat)
    ensures (a + q * WORD) % WORD == a % WORD
  {
    if q > 0 {
      ModShift(a, q - 1);
      assert a + q * WORD == (a + (q - 1) * WORD) + WORD;
    }
  }

  lemma UpToSeparatorIs(s: seq<byte>, n: nat)
    requires n <= |s|
    requires forall i | 0 <= i < n :: s[i] != SEPARATOR
    requires n < |s| ==> s[n] == SEPARATOR
    ensures UpToSeparator(s) == s[..n]
  {
    var t := UpToSeparator(s);
    assert |t| < |s| ==> s[|t|] == SEPARATOR;
    assert forall i | 0 <= i < |t| :: s[i] == t[i] && t[i] in t;
  }

  /** The inner loop of keydecode: where the PG name that starts at `pi` ends. */
  method PgEnd(k: Key, pi: nat) returns (ki: nat)
    requires pi <= |k|
    ensures pi <= ki <= |k| && k[pi..ki] == UpToSeparator(k[pi..])
  {
    ki := pi;
    while ki < |k| && k[ki] != SEPARATOR
      invariant pi <= ki <= |k|
      invariant forall i | pi <= i < ki :: k[i] != SEPARATOR
    {
      ki := ki + 1;
    }
    var s := k[pi..];
    assert forall i | 0 <= i < ki - pi :: s[i] == k[pi + i];
    UpToSeparatorIs(s, ki - pi);
    assert s[..ki - pi] == k[pi..ki];
  }

  /** keydecode: status, position and length of the PG name, and the counter. */
  method KeyDecode(k: Key) returns (status: KeyStatus, pgBase: nat, pgLen: nat, counter: nat)
    ensures status.KeyTooLong? <==> |k| >= BYTES_PER_LOGGING_OBJECT
    ensures status.KeyOk? <==> |k| < BYTES_PER_LOGGING_OBJECT && WellFormed(k)
    ensures status.KeyOk? ==> pgBase + pgLen <= |k| && k[pgBase..pgBase + pgLen] == PgOf(k)
    ensures status.KeyOk? ==> k[pgBase..] == Suffix(k) && counter == CounterOf(k)
  {
    pgBase, pgLen, counter := 0, 0, 0;
    if |k| >= BYTES_PER_LOGGING_OBJECT {
      return KeyTooLong, 0, 0, 0;
    }
    var c, ki := 0, 0;
    assert Decimal(k[..0]) == 0;
    hide Decimal, DigitRun, UpToSeparator;
    while ki < |k|
      invariant 0 <= ki <= |k|
      invariant forall i | 0 <= i < ki :: IsDigit(k[i])
      invariant c == Decimal(k[..ki]) % WORD
    {
      if k[ki] == SEPARATOR {
        DigitRunIs(k, ki);
        var pgEnd := PgEnd(k, ki + 1);
        return KeyOk, ki + 1, pgEnd - (ki + 1), c;
      }
      if !IsDigit(k[ki]) {
        DigitRunIs(k, ki);
        return BadKey, 0, 0, 0;
      }
      DecimalStep(k, ki);
      WrapStep(Decimal(k[..ki]), k[ki] - 0x30);
      c := (10 * c + (k[ki] - 0x30)) % WORD;
      ki := ki + 1;
    }
    DigitRunIs(k, |k|);
    return BadKey, 0, 0, 0;
  }

  // ---------------------------------------------------------------- keyequal

  lemma {:induction false} CanonIs(k: Key, n: nat)
    requires n <= |k|
    requires forall i | 0 <= i < n :: k[i] == ZERO
    requires n < |k| ==> k[n] != ZERO
    ensures Canon(k) == k[n..]
  {
    if n > 0 {
      CanonIs(k[1..], n - 1);
      assert k[1..][n - 1..] == k[n..];
    }
  }

  /** keyequal skips leading zeros on both sides and compares what is left. */
  method KeyEqual(k0: Key, k1: Key) returns (equal: bool)
    ensures equal <==> Canon(k0) == Canon(k1)
  {
    var i0, i1 := 0, 0;
    while i0 < |k0| && k0[i0] == ZERO
      invariant 0 <= i0 <= |k0|
      invariant forall i | 0 <= i < i0 :: k0[i] == ZERO
    {
      i0 := i0 + 1;
    }
    while i1 < |k1| && k1[i1] == ZERO
      invariant 0 <= i1 <= |k1|
      invariant forall i | 0 <= i < i1 :: k1[i] == ZERO
    {
      i1 := i1 + 1;
    }
    CanonIs(k0, i0);
    CanonIs(k1, i1);
    equal := |k0| - i0 == |k1| - i1 && k0[i0..] == k1[i1..];
  }

  // -------------------------------------------- what equality of keys determines

  lemma {:induction false} DecimalDropZero(s: seq<byte>)
    requires s != [] && s[0] == ZERO
    requires forall i | 0 <= i < |s| :: IsDigit(s[i])
    ensures Decimal(s) == Decimal(s[1..])
  {
    if |s| > 1 {
      var t := s[..|s| - 1];
      DecimalDropZero(t);
      assert s[1..][..|s| - 2] == t[1..];
    }
  }

  /** Canon touches only the digits: same separator, same suffix, same counter. */
  lemma {:induction false} CanonKeeps(k: Key)
    requires WellFormed(k)
    ensures WellFormed(Canon(k))
    ensures FullCounter(Canon(k)) == FullCounter(k)
    ensures Suffix(Canon(k)) == Suffix(k)
  {
    if k[0] == ZERO {
      var t := k[1..];
      assert DigitRun(k) == 1 + DigitRun(t);
      CanonKeeps(t);
      var d := k[..DigitRun(k)];
      assert d[1..] == t[..DigitRun(t)];
      DecimalDropZero(d);
      assert k[DigitRun(k) + 1..] == t[DigitRun(t) + 1..];
    }
  }

  /** Keys that keyequal identifies have the same counter and live in the same PG. */
  lemma EqualKeysAgree(k0: Key, k1: Key)
    requires WellFormed(k0) && WellFormed(k1)
    requires Canon(k0) == Canon(k1)
    ensures FullCounter(k0) == FullCounter(k1) && CounterOf(k0) == CounterOf(k1)
    ensures Suffix(k0) == Suffix(k1) && PgOf(k0) == PgOf(k1)
  {
    CanonKeeps(k0);
    CanonKeeps(k1);
  }

  lemma {:induction false} CanonLeads(k: Key)
    ensures Canon(k) != [] ==> Canon(k)[0] != ZERO
  {
    if k != [] && k[0] == ZERO { CanonLeads(k[1..]); }
  }

  /** A digit string without leading zeros is positive unless it is empty. */
  lemma {:induction false} DecimalPositive(s: seq<byte>)
    requires s != [] && s[0] != ZERO
    requires forall i | 0 <= i < |s| :: IsDigit(s[i])
    ensures Decimal(s) > 0
  {
    if |s| > 1 { DecimalPositive(s[..|s| - 1]); }
  }

  lemma LastDigit(m: nat, a: nat, n: nat, b: nat)
    requires a < 10 && b < 10 && 10 * m + a == 10 * n + b
    ensures m == n && a == b
  {}

  /** Decimal notation without leading zeros is unique. */
  lemma {:induction false} DecimalInjective(s: seq<byte>, t: seq<byte>)
    requires forall i | 0 <= i < |s| :: IsDigit(s[i])
    requires forall i | 0 <= i < |t| :: IsDigit(t[i])
    requires s != [] ==> s[0] != ZERO
    requires t != [] ==> t[0] != ZERO
    requires Decimal(s) == Decimal(t)
    ensures s == t
  {
    if s == [] {
      if t != [] { DecimalPositive(t); }
    } else if t == [] {
      DecimalPositive(s);
    } else {
      var s', t' := s[..|s| - 1], t[..|t| - 1];
      var x, y := s[|s| - 1], t[|t| - 1];
      assert IsDigit(x) && IsDigit(y);
      LastDigit(Decimal(s'), x - 0x30, Decimal(t'), y - 0x30);
      DecimalInjective(s', t');
      assert s == s' + [x] && t == t' + [y];
    }
  }

  /** The converse of EqualKeysAgree: counter value and suffix determine the key. */
  lemma CounterAndSuffixDetermine(k0: Key, k1: Key)
    requires WellFormed(k0) && WellFormed(k1)
    requires FullCounter(k0) == FullCounter(k1) && Suffix(k0) == Suffix(k1)
    ensures Canon(k0) == Canon(k1)
  {
    CanonKeeps(k0);
    CanonKeeps(k1);
    CanonLeads(k0);
    CanonLeads(k1);
    hide Canon, DigitRun, Decimal;
    var c0, c1 := Canon(k0), Canon(k1);
    DecimalInjective(c0[..DigitRun(c0)], c1[..DigitRun(c1)]);
    assert c0 == c0[..DigitRun(c0)] + [SEPARATOR] + Suffix(c0);
    assert c1 == c1[..DigitRun(c1)] + [SEPARATOR] + Suffix(c1);
  }
}
