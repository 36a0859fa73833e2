/** Words of memory: little-endian bytes, and 64-bit unsigned arithmetic. */
module Words {
  import opened Keys

  function Pow256(n: nat): (p: nat)
    ensures p > 0
  {
    if n == 0 then 1 else 256 * Pow256(n - 1)
  }

  /** Little-endian words, least significant byte first. */
  function Little(v: nat, n: nat): (s: seq<byte>)
    ensures |s| == n
  {
    if n == 0 then [] else [v % 256] + Little(v / 256, n - 1)
  }

  function Word(s: seq<byte>): nat {
    if s == [] then 0 else s[0] + 256 * Word(s[1..])
  }

  lemma {:induction false} WordLittle(v: nat, n: nat)
    requires v < Pow256(n)
    ensures Word(Little(v, n)) == v
  {
    if n > 0 {
      WordLittle(v / 256, n - 1);
      assert Little(v, n)[1..] == Little(v / 256, n - 1);
    }
  }

  lemma WordSizes()
    ensures Pow256(2) == 0x1_0000 && Pow256(4) == 0x1_0000_0000 && Pow256(8) == WORD
  {
    assert Pow256(1) == 256 && Pow256(2) == 256 * Pow256(1);
    assert Pow256(3) == 256 * Pow256(2) && Pow256(4) == 256 * Pow256(3);
    assert Pow256(5) == 256 * Pow256(4) && Pow256(6) == 256 * Pow256(5);
    assert Pow256(7) == 256 * Pow256(6) && Pow256(8) == 256 * Pow256(7);
  }

  lemma {:induction false} WordBound(s: seq<byte>)
    ensures Word(s) < Pow256(|s|)
  {
    if s != [] { WordBound(s[1..]); }
  }

  lemma {:induction false} LittleWord(s: seq<byte>)
    ensures Little(Word(s), |s|) == s
  {
    if s != [] {
      var w := Word(s[1..]);
      LittleWord(s[1..]);
      assert (s[0] + 256 * w) % 256 == s[0] && (s[0] + 256 * w) / 256 == w;
      assert s == [s[0]] + s[1..];
    }
  }

  // ---------------------------------------------------------------- 64-bit arithmetic

  type Ub8 = x: nat | x < WORD

  function Plus(x: Ub8, y: Ub8): Ub8 { (x + y) % WORD }

  function Minus(x: Ub8, y: Ub8): Ub8 { (x - y) % WORD }

  function Pow2(n: nat): (p: nat)
    ensures p > 0
  {
    if n == 0 then 1 else 2 * Pow2(n - 1)
  }

  function Shl(x: Ub8, n: nat): Ub8
    decreases n
  {
    if n == 0 then x else Shl(2 * x % WORD, n - 1)
  }

  function Shr(x: Ub8, n: nat): Ub8 { if n == 0 then x else Shr(x / 2, n - 1) }

  /** Bitwise exclusive or of the low n bits. */
  function XorBits(x: nat, y: nat, n: nat): (r: nat)
    ensures r < Pow2(n)
  {
    if n == 0 then 0 else (if x % 2 == y % 2 then 0 else 1) + 2 * XorBits(x / 2, y / 2, n - 1)
  }

  lemma {:induction false} PowAdd(m: nat, n: nat)
    ensures Pow2(m + n) == Pow2(m) * Pow2(n)
  {
    if m > 0 {
      PowAdd(m - 1, n);
      assert Pow2(m + n) == 2 * Pow2(m - 1 + n);
    }
  }

  lemma PowHalf()
    ensures Pow2(16) == 0x1_0000
  {
    assert Pow2(1) == 2 && Pow2(2) == 4;
    PowAdd(2, 2);
    PowAdd(4, 4);
    PowAdd(8, 8);
    hide Pow2;
  }

  lemma PowWord()
    ensures Pow2(64) == WORD
  {
    hide Pow2;
    assert Pow2(16) == 0x1_0000 by { PowHalf(); }
    PowAdd(16, 16);
    PowAdd(32, 32);
  }

  function Xor(x: Ub8, y: Ub8): Ub8 {
    PowWord();
    XorBits(x, y, 64)
  }

  lemma MinusPlus(x: Ub8, y: Ub8)
    ensures Plus(Minus(x, y), y) == x && Minus(Plus(x, y), y) == x
  {}

  lemma PlusCancels(x: Ub8, y: Ub8, z: Ub8)
    requires Plus(x, y) == Plus(x, z)
    ensures y == z
  {}

  lemma {:induction false} XorBitsTwice(x: nat, y: nat, n: nat)
    requires x < Pow2(n)
    ensures XorBits(XorBits(x, y, n), y, n) == x
  {
    if n > 0 {
      XorBitsTwice(x / 2, y / 2, n - 1);
      var r := XorBits(x, y, n);
      assert r / 2 == XorBits(x / 2, y / 2, n - 1);
    }
  }

  lemma XorTwice(x: Ub8, y: Ub8)
    ensures Xor(Xor(x, y), y) == x
  {
    PowWord();
    XorBitsTwice(x, y, 64);
  }

  // -------------------------------------------------------------------- what they mean

  /** A shift right divides, a shift left multiplies modulo the word. */
  lemma {:induction false} ShrIs(x: Ub8, n: nat)
    ensures Shr(x, n) == x / Pow2(n)
  {
    if n > 0 {
      ShrIs(x / 2, n - 1);
      DivTwice(x, Pow2(n - 1));
    }
  }

  lemma DivTwice(x: nat, p: nat)
    requires 0 < p
    ensures x / 2 / p == x / (2 * p)
  {
    var h := x / 2;
    var q, r := h / p, h % p;
    assert x == 2 * h + x % 2 && h == p * q + r;
    assert 2 * (p * q) == 2 * p * q;
    QuotientIs(x, 2 * p, q, 2 * r + x % 2);
  }

  lemma QuotientIs(x: nat, m: nat, q: nat, r: nat)
    requires x == m * q + r && r < m
    ensures x / m == q
  {
    var d := x / m;
    assert x == m * d + x % m;
    if d < q {
      assert m * (d + 1) <= m * q by { Scaled(m, d + 1, q); }
    } else if q < d {
      assert m * (q + 1) <= m * d by { Scaled(m, q + 1, d); }
    }
  }

  lemma Scaled(m: nat, a: nat, b: nat)
    requires a <= b
    ensures m * a <= m * b
  {}

  lemma {:induction false} ShlIs(x: Ub8, n: nat)
    ensures Shl(x, n) == x * Pow2(n) % WORD
    decreases n
  {
    if n == 0 {
      assert x * Pow2(0) == x;
    } else {
      ShlIs(2 * x % WORD, n - 1);
      Doubled(x, Pow2(n - 1));
      MulMod(2 * x, Pow2(n - 1));
      assert Pow2(n) == 2 * Pow2(n - 1) && Shl(x, n) == Shl(2 * x % WORD, n - 1);
      hide Pow2, Shl;
    }
  }

  lemma Doubled(x: nat, p: nat)
    ensures x * (2 * p) == 2 * x * p
  {}

  lemma {:induction false} MulMod(a: nat, p: nat)
    ensures (a % WORD) * p % WORD == a * p % WORD
  {
    if p > 0 {
      MulMod(a, p - 1);
      var r := a % WORD;
      assert r * p == r * (p - 1) + r && a * p == a * (p - 1) + a;
      AddMods(r * (p - 1), a * (p - 1), a);
    }
  }

  lemma AddMods(x: nat, y: nat, a: nat)
    requires x % WORD == y % WORD
    ensures (x + a % WORD) % WORD == (y + a) % WORD
  {}

  function Bit(x: nat, i: nat): nat { x / Pow2(i) % 2 }

  lemma BitUp(x: nat, i: nat)
    ensures Bit(x, i + 1) == Bit(x / 2, i)
  {
    DivTwice(x, Pow2(i));
  }

  /** Bit by bit. */
  lemma {:induction false} XorBitsIs(x: nat, y: nat, n: nat, i: nat)
    requires i < n
    ensures Bit(XorBits(x, y, n), i) == if Bit(x, i) == Bit(y, i) then 0 else 1
  {
    var r := XorBits(x, y, n);
    assert r / 2 == XorBits(x / 2, y / 2, n - 1);
    if i == 0 {
      assert Pow2(0) == 1;
    } else {
      XorBitsIs(x / 2, y / 2, n - 1, i - 1);
      BitUp(x, i - 1);
      BitUp(y, i - 1);
      BitUp(r, i - 1);
      hide Bit, XorBits;
    }
  }
}
