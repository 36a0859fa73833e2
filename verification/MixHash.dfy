/** cmap_hash: Bob Jenkins' 64-bit mixer and the hash built on it. */
module MixHash {

  import opened Keys
  import opened Words

  datatype Triple = Triple(a: Ub8, b: Ub8, c: Ub8)

  const GOLDEN: Ub8 := 0x9e3779b97f4a7c13

  // ----------------------------------------------------------------------- mixer

  /** One line of the mixer: x -= y; x -= z; x ^= t. */
  function Line(x: Ub8, y: Ub8, z: Ub8, t: Ub8): Ub8 { Xor(Minus(Minus(x, y), z), t) }

  function Unline(x: Ub8, y: Ub8, z: Ub8, t: Ub8): Ub8 { Plus(Plus(Xor(x, t), z), y) }

  lemma LineInverts(x: Ub8, y: Ub8, z: Ub8, t: Ub8)
    ensures Unline(Line(x, y, z, t), y, z, t) == x
    ensures Line(Unline(x, y, z, t), y, z, t) == x
  {
    hide Plus, Minus, Xor;
    XorTwice(Minus(Minus(x, y), z), t);
    MinusPlus(Minus(x, y), z);
    MinusPlus(x, y);
    XorTwice(x, t);
    MinusPlus(Xor(x, t), z);
    MinusPlus(Plus(Xor(x, t), z), y);
  }

  /** Three lines, with their shifts. */
  function Quarter(s: Triple, p: nat, q: nat, r: nat): Triple
  {
    var a := Line(s.a, s.b, s.c, Shr(s.c, p));
    var b := Line(s.b, s.c, a, Shl(a, q));
    var c := Line(s.c, a, b, Shr(b, r));
    Triple(a, b, c)
  }

  /** The same three lines undone, last first. */
  function Unquarter(s: Triple, p: nat, q: nat, r: nat): Triple
  {
    var c := Unline(s.c, s.a, s.b, Shr(s.b, r));
    var b := Unline(s.b, c, s.a, Shl(s.a, q));
    var a := Unline(s.a, b, c, Shr(c, p));
    Triple(a, b, c)
  }

  function Mixed(s: Triple): Triple {
    Quarter(Quarter(Quarter(Quarter(s, 43, 9, 8), 38, 23, 5), 35, 49, 11), 12, 18, 22)
  }

  function Unmixed(s: Triple): Triple {
    Unquarter(Unquarter(Unquarter(Unquarter(s, 12, 18, 22), 35, 49, 11), 38, 23, 5), 43, 9, 8)
  }

  lemma QuarterInverts(s: Triple, p: nat, q: nat, r: nat)
    ensures Unquarter(Quarter(s, p, q, r), p, q, r) == s
    ensures Quarter(Unquarter(s, p, q, r), p, q, r) == s
  {
    hide Line, Unline, Shl, Shr;
    var f, g := Quarter(s, p, q, r), Unquarter(s, p, q, r);
    LineInverts(s.c, f.a, f.b, Shr(f.b, r));
    LineInverts(s.b, s.c, f.a, Shl(f.a, q));
    LineInverts(s.a, s.b, s.c, Shr(s.c, p));
    LineInverts(s.c, s.a, s.b, Shr(s.b, r));
    LineInverts(s.b, g.c, s.a, Shl(s.a, q));
    LineInverts(s.a, g.b, g.c, Shr(g.c, p));
  }

  /** mix64 is a bijection on triples of words. */
  lemma MixBijective(s: Triple)
    ensures Unmixed(Mixed(s)) == s && Mixed(Unmixed(s)) == s
  {
    hide Quarter, Unquarter;
    var s1 := Quarter(s, 43, 9, 8);
    var s2 := Quarter(s1, 38, 23, 5);
    QuarterInverts(s, 43, 9, 8);
    QuarterInverts(s1, 38, 23, 5);
    QuarterInverts(s2, 35, 49, 11);
    QuarterInverts(Quarter(s2, 35, 49, 11), 12, 18, 22);
    var u1 := Unquarter(s, 12, 18, 22);
    var u2 := Unquarter(u1, 35, 49, 11);
    QuarterInverts(s, 12, 18, 22);
    QuarterInverts(u1, 35, 49, 11);
    QuarterInverts(u2, 38, 23, 5);
    QuarterInverts(Unquarter(u2, 38, 23, 5), 43, 9, 8);
  }

  /** The shifts of the twelve lines, to the right or to the left. */
  datatype Shift = Right(bits: nat) | Left(bits: nat)

  const SHIFTS: seq<Shift> :=
    [Right(43), Left(9), Right(8), Right(38), Left(23), Right(5),
     Right(35), Left(49), Right(11), Right(12), Left(18), Right(22)]

  function Shifted(x: Ub8, t: Shift): Ub8 { if t.Right? then Shr(x, t.bits) else Shl(x, t.bits) }

  /** The first n lines as one rule: the first of three words loses the other two and takes in the last of them,
      shifted; then the next word is first. */
  function Turned(s: Triple, n: nat): Triple
    requires n <= |SHIFTS|
  {
    if n == 0 then s
    else
      var t := Turned(s, n - 1);
      Triple(t.b, t.c, Xor(Minus(Minus(t.a, t.b), t.c), Shifted(t.c, SHIFTS[n - 1])))
  }

  lemma QuarterTurns(s: Triple, n: nat, p: nat, q: nat, r: nat)
    requires n + 3 <= |SHIFTS| && SHIFTS[n] == Right(p) && SHIFTS[n + 1] == Left(q) && SHIFTS[n + 2] == Right(r)
    ensures Turned(s, n + 3) == Quarter(Turned(s, n), p, q, r)
  {
    hide Minus, Xor, Shr, Shl;
    var t := Turned(s, n);
    assert Turned(s, n + 1) == Triple(t.b, t.c, Line(t.a, t.b, t.c, Shr(t.c, p)));
    var u := Turned(s, n + 1);
    assert Turned(s, n + 2) == Triple(u.b, u.c, Line(u.a, u.b, u.c, Shl(u.c, q)));
  }

  /** mix64 is that rule with those shifts. */
  lemma MixIs(s: Triple)
    ensures |SHIFTS| == 12 && Mixed(s) == Turned(s, 12)
  {
    hide Quarter, Turned;
    assert Turned(s, 0) == s by { NoTurn(s); }
    QuarterTurns(s, 0, 43, 9, 8);
    QuarterTurns(s, 3, 38, 23, 5);
    QuarterTurns(s, 6, 35, 49, 11);
    QuarterTurns(s, 9, 12, 18, 22);
  }

  lemma NoTurn(s: Triple)
    ensures Turned(s, 0) == s
  {}

  /** The macro, statement by statement. */
  method Mix64(a0: Ub8, b0: Ub8, c0: Ub8) returns (a: Ub8, b: Ub8, c: Ub8)
    ensures Triple(a, b, c) == Mixed(Triple(a0, b0, c0)) == Turned(Triple(a0, b0, c0), 12)
    ensures Unmixed(Triple(a, b, c)) == Triple(a0, b0, c0)
  {
    MixBijective(Triple(a0, b0, c0));
    MixIs(Triple(a0, b0, c0));
    hide Turned, Plus, Minus, Xor, Shl, Shr, Unmixed;
    a, b, c := a0, b0, c0;
    a := Minus(a, b); a := Minus(a, c); a := Xor(a, Shr(c, 43));
    b := Minus(b, c); b := Minus(b, a); b := Xor(b, Shl(a, 9));
    c := Minus(c, a); c := Minus(c, b); c := Xor(c, Shr(b, 8));
    a := Minus(a, b); a := Minus(a, c); a := Xor(a, Shr(c, 38));
    b := Minus(b, c); b := Minus(b, a); b := Xor(b, Shl(a, 23));
    c := Minus(c, a); c := Minus(c, b); c := Xor(c, Shr(b, 5));
    a := Minus(a, b); a := Minus(a, c); a := Xor(a, Shr(c, 35));
    b := Minus(b, c); b := Minus(b, a); b := Xor(b, Shl(a, 49));
    c := Minus(c, a); c := Minus(c, b); c := Xor(c, Shr(b, 11));
    a := Minus(a, b); a := Minus(a, c); a := Xor(a, Shr(c, 12));
    b := Minus(b, c); b := Minus(b, a); b := Xor(b, Shl(a, 18));
    c := Minus(c, a); c := Minus(c, b); c := Xor(c, Shr(b, 22));
  }

  // ------------------------------------------------------------------------ hash

  type Key = seq<byte>

  /** Add 24 bytes to the state, eight to each word. */
  function Added(s: Triple, k: Key): Triple
    requires |k| == 24
  {
    Triple(Plus(s.a, Load(k[0..8])), Plus(s.b, Load(k[8..16])), Plus(s.c, Load(k[16..24])))
  }

  /** The word an aligned load finds in eight bytes of memory. */
  function Load(k: Key): (w: Ub8)
    requires |k| <= 8
    ensures Little(w, |k|) == k
  {
    LoadFits(k);
    LittleWord(k);
    Word(k)
  }

  lemma LoadFits(k: Key)
    requires |k| <= 8
    ensures Word(k) < WORD
  {
    WordBound(k);
    WordSizes();
    PowGrows(|k|, 8);
  }

  lemma PowGrows(m: nat, n: nat)
    requires m <= n
    ensures Pow256(m) <= Pow256(n)
    decreases n
  {
    if m < n { PowGrows(m, n - 1); }
  }

  /** The state after all whole blocks. */
  function Blocks(s: Triple, k: Key): Triple
    decreases |k|
  {
    if |k| < 24 then s else Blocks(Mixed(Added(s, k[..24])), k[24..])
  }

  function Tail(k: Key): (t: Key)
    ensures |t| < 24
  {
    if |k| < 24 then k else Tail(k[24..])
  }

  /** The last words: the low byte of c is kept for the length. */
  function Last(s: Triple, t: Key, length: Ub8): Triple
    requires |t| < 24
  {
    var n := |t|;
    Triple(Plus(s.a, Load(t[..Min(n, 8)])),
           Plus(s.b, Load(t[Min(n, 8)..Min(n, 16)])),
           Plus(Plus(s.c, length), Load([0] + t[Min(n, 16)..n])))
  }

  function Min(x: nat, y: nat): nat { if x < y then x else y }

  /** The final a, b and c; c is the hash. */
  function HashState(k: Key, level: Ub8): Triple
    requires |k| < WORD
  {
    Mixed(Last(Blocks(Triple(level, level, GOLDEN), k), Tail(k), |k|))
  }

  // ------------------------------------------------------------------ byte by byte

  /** A byte shifted left. */
  function Place(b: byte, m: nat): nat { (b as int) * m }

  /** Bytes lo to hi - 1 of the key as they stand in a word, the first of them `up` bytes from its low end. */
  function Spread(k: Key, lo: nat, hi: nat, up: nat): nat
    requires lo <= hi <= |k|
  {
    if lo == hi then 0 else Spread(k, lo, hi - 1, up) + Place(k[hi - 1], Pow256(up + (hi - 1 - lo)))
  }

  function Wrap(x: nat): Ub8 { x % WORD }

  /** The state after j whole blocks: byte 24 j + i goes to byte i of the 24 bytes of a, b and c. */
  function AfterBlocks(k: Key, level: Ub8, j: nat): Triple
    requires 24 * j <= |k|
  {
    if j == 0 then Triple(level, level, 0x9e3779b97f4a7c13)
    else
      var s, at := AfterBlocks(k, level, j - 1), 24 * (j - 1);
      Mixed(Triple(Wrap(s.a + Spread(k, at, at + 8, 0)),
                   Wrap(s.b + Spread(k, at + 8, at + 16, 0)),
                   Wrap(s.c + Spread(k, at + 16, at + 24, 0))))
  }

  /** The final state, byte by byte: of what is left after the whole blocks eight bytes go to a, eight to b
      and the rest to c from its second byte on; the length is added to c. */
  function FinalState(k: Key, level: Ub8): Triple {
    var n := |k|;
    var at := 24 * (n / 24);
    var s := AfterBlocks(k, level, n / 24);
    Mixed(Triple(Wrap(s.a + Spread(k, at, Min(n, at + 8), 0)),
                 Wrap(s.b + Spread(k, Min(n, at + 8), Min(n, at + 16), 0)),
                 Wrap(s.c + n + Spread(k, Min(n, at + 16), n, 1))))
  }

  lemma {:induction false} WordSnoc(k: Key, b: byte)
    ensures Word(k + [b]) == Word(k) + Place(b, Pow256(|k|))
  {
    if k != [] {
      WordSnoc(k[1..], b);
      assert (k + [b])[1..] == k[1..] + [b];
      assert Pow256(|k|) == 256 * Pow256(|k| - 1);
      PlaceUp(b, Pow256(|k| - 1));
    } else {
      assert (k + [b])[1..] == [];
    }
  }

  lemma PlaceUp(b: byte, m: nat)
    ensures Place(b, 256 * m) == 256 * Place(b, m)
  {}

  lemma {:induction false} SpreadIs(k: Key, lo: nat, hi: nat)
    requires lo <= hi <= |k|
    ensures Spread(k, lo, hi, 0) == Word(k[lo..hi]) && Spread(k, lo, hi, 1) == Word([0] + k[lo..hi])
  {
    if lo == hi {
      assert [0][1..] == [];
      assert [0] + k[lo..hi] == [0];
    } else {
      SpreadIs(k, lo, hi - 1);
      var w, b := k[lo..hi - 1], k[hi - 1];
      assert k[lo..hi] == w + [b];
      assert [0] + k[lo..hi] == ([0] + w) + [b];
      WordSnoc(w, b);
      WordSnoc([0] + w, b);
      hide Word, Place;
    }
  }

  lemma SpreadLoads(x: Ub8, k: Key, lo: nat, hi: nat)
    requires lo <= hi <= |k| && hi - lo <= 8
    ensures Wrap(x + Spread(k, lo, hi, 0)) == Plus(x, Load(k[lo..hi]))
  {
    SpreadIs(k, lo, hi);
    hide Spread, Word;
  }

  lemma SpreadLoadsUp(x: Ub8, n: Ub8, k: Key, lo: nat, hi: nat)
    requires lo <= hi <= |k| && hi - lo <= 7
    ensures Wrap(x + n + Spread(k, lo, hi, 1)) == Plus(Plus(x, n), Load([0] + k[lo..hi]))
  {
    SpreadIs(k, lo, hi);
    hide Spread, Word;
    assert Load([0] + k[lo..hi]) == Spread(k, lo, hi, 1);
    PlusTwice(x, n, Load([0] + k[lo..hi]));
  }

  lemma PlusTwice(x: Ub8, y: Ub8, z: Ub8)
    ensures Plus(Plus(x, y), z) == Wrap(x + y + z)
  {
    AddMod(x + y, z);
  }

  lemma AddMod(x: nat, y: nat)
    ensures (x % WORD + y) % WORD == (x + y) % WORD
  {}

  lemma NextBlock(k: Key, level: Ub8, j: nat)
    requires 0 < j && 24 * j <= |k|
    ensures var at := 24 * (j - 1);
            AfterBlocks(k, level, j) == Mixed(Added(AfterBlocks(k, level, j - 1), k[at..at + 24]))
  {
    hide Mixed, Plus, Load, Spread, Wrap;
    var s, at := AfterBlocks(k, level, j - 1), 24 * (j - 1);
    SpreadLoads(s.a, k, at, at + 8);
    SpreadLoads(s.b, k, at + 8, at + 16);
    SpreadLoads(s.c, k, at + 16, at + 24);
    Slices(k, at);
  }

  lemma Slices(k: Key, at: nat)
    requires at + 24 <= |k|
    ensures k[at..at + 24][0..8] == k[at..at + 8]
    ensures k[at..at + 24][8..16] == k[at + 8..at + 16]
    ensures k[at..at + 24][16..24] == k[at + 16..at + 24]
  {
    var b := k[at..at + 24];
    assert forall i | 0 <= i < 24 :: b[i] == k[at + i];
  }

  lemma {:induction false} BlocksAre(k: Key, level: Ub8, j: nat)
    requires 24 * j <= |k|
    ensures Blocks(AfterBlocks(k, level, j), k[24 * j..]) == Blocks(Triple(level, level, GOLDEN), k)
    ensures Tail(k[24 * j..]) == Tail(k)
  {
    hide Mixed, Added, AfterBlocks, Blocks, Tail;
    if j == 0 {
      assert k[24 * j..] == k;
      NoBlocks(k, level);
    } else {
      BlocksAre(k, level, j - 1);
      NextBlock(k, level, j);
      OneBlock(AfterBlocks(k, level, j - 1), k, 24 * (j - 1));
    }
  }

  lemma NoBlocks(k: Key, level: Ub8)
    ensures AfterBlocks(k, level, 0) == Triple(level, level, GOLDEN)
  {}

  lemma OneBlock(s: Triple, k: Key, at: nat)
    requires at + 24 <= |k|
    ensures Blocks(s, k[at..]) == Blocks(Mixed(Added(s, k[at..at + 24])), k[at + 24..])
    ensures Tail(k[at..]) == Tail(k[at + 24..])
  {
    hide Mixed, Added;
    assert k[at..][..24] == k[at..at + 24] && k[at..][24..] == k[at + 24..];
  }

  lemma LastIs(s: Triple, k: Key, at: nat)
    requires at <= |k| < at + 24 && |k| < WORD
    ensures var n := |k|;
            Last(s, k[at..], n) == Triple(Wrap(s.a + Spread(k, at, Min(n, at + 8), 0)),
                                          Wrap(s.b + Spread(k, Min(n, at + 8), Min(n, at + 16), 0)),
                                          Wrap(s.c + n + Spread(k, Min(n, at + 16), n, 1)))
  {
    hide Plus, Load, Spread, Wrap;
    var n := |k|;
    SpreadLoads(s.a, k, at, Min(n, at + 8));
    SpreadLoads(s.b, k, Min(n, at + 8), Min(n, at + 16));
    SpreadLoadsUp(s.c, n, k, Min(n, at + 16), n);
    TailSlices(k, at);
  }

  lemma TailSlices(k: Key, at: nat)
    requires at <= |k| < at + 24
    ensures var n, t := |k|, k[at..];
            && t[..Min(|t|, 8)] == k[at..Min(n, at + 8)]
            && t[Min(|t|, 8)..Min(|t|, 16)] == k[Min(n, at + 8)..Min(n, at + 16)]
            && t[Min(|t|, 16)..|t|] == k[Min(n, at + 16)..n]
  {}

  /** The state the hash is taken from, byte by byte. */
  lemma HashStateIs(k: Key, level: Ub8)
    requires |k| < WORD
    ensures HashState(k, level) == FinalState(k, level)
  {
    hide Mixed, Last, AfterBlocks, Spread, Wrap;
    var j := |k| / 24;
    BlocksAre(k, level, j);
    LastIs(AfterBlocks(k, level, j), k, 24 * j);
  }

  // --------------------------------------------------------------------- the code

  /** The byte-assembling sum of the unaligned loop is the aligned load. */
  lemma Assembled(k: Key)
    requires |k| == 8
    ensures k[0] + Place(k[1], 0x100) + Place(k[2], 0x1_0000) + Place(k[3], 0x100_0000) + Place(k[4], 0x1_0000_0000)
            + Place(k[5], 0x100_0000_0000) + Place(k[6], 0x1_0000_0000_0000) + Place(k[7], 0x100_0000_0000_0000) == Load(k)
  {
    var k1, k2, k3 := k[1..], k[2..], k[3..];
    var k4, k5, k6, k7 := k[4..], k[5..], k[6..], k[7..];
    assert Word(k) == k[0] + 256 * Word(k1);
    assert k1[1..] == k2 && Word(k1) == k[1] + 256 * Word(k2);
    assert k2[1..] == k3 && Word(k2) == k[2] + 256 * Word(k3);
    assert k3[1..] == k4 && Word(k3) == k[3] + 256 * Word(k4);
    assert k4[1..] == k5 && Word(k4) == k[4] + 256 * Word(k5);
    assert k5[1..] == k6 && Word(k5) == k[5] + 256 * Word(k6);
    assert k6[1..] == k7 && Word(k6) == k[6] + 256 * Word(k7);
    assert k7[1..] == [] && Word(k7) == k[7];
  }

  method AssembleWord(k: Key) returns (w: Ub8)
    requires |k| == 8
    ensures w == Load(k)
  {
    Assembled(k);
    w := k[0] + Place(k[1], 0x100) + Place(k[2], 0x1_0000) + Place(k[3], 0x100_0000) + Place(k[4], 0x1_0000_0000)
         + Place(k[5], 0x100_0000_0000) + Place(k[6], 0x1_0000_0000_0000) + Place(k[7], 0x100_0000_0000_0000);
  }

  /** The last bytes of one word, highest first: the fall-through switch. */
  method AddDown(x0: Ub8, k: Key) returns (x: Ub8)
    requires |k| <= 8
    ensures x == Plus(x0, Load(k))
  {
    x := x0;
    var i := |k|;
    assert k[|k|..] == [];
    while i > 0
      invariant 0 <= i <= |k|
      invariant x == (x0 + Pow256(i) * Word(k[i..])) % WORD
    {
      i := i - 1;
      AddPlace(x0, x, k, i);
      x := (x + Place(k[i], Pow256(i))) % WORD;
    }
    assert k[0..] == k;
  }

  lemma AddPlace(x0: Ub8, x: Ub8, k: Key, i: nat)
    requires i < |k| && x == (x0 + Pow256(i + 1) * Word(k[i + 1..])) % WORD
    ensures (x + Place(k[i], Pow256(i))) % WORD == (x0 + Pow256(i) * Word(k[i..])) % WORD
  {
    var p, w := Pow256(i), Word(k[i + 1..]);
    assert k[i..][1..] == k[i + 1..];
    assert Pow256(i) * Word(k[i..]) == p * (k[i] as int + 256 * w);
    assert p * (k[i] as int + 256 * w) == Place(k[i], p) + 256 * p * w by { Distribute(p, k[i], w); }
    assert Pow256(i + 1) * w == 256 * p * w;
    AddMod(x0 + 256 * p * w, Place(k[i], p));
  }

  lemma Distribute(p: nat, b: byte, w: nat)
    ensures p * (b as int + 256 * w) == Place(b, p) + 256 * p * w
  {}

  /** Both loops and the switch: whichever way the key is aligned, the result is the same. */
  method CmapHash(key: Key, aligned: bool, level: Ub8) returns (h: Ub8)
    requires |key| < WORD
    ensures h == HashState(key, level).c == FinalState(key, level).c
  {
    hide Mixed, Plus, Load, Word, FinalState;
    HashStateIs(key, level);
    var a, b, c, k := level, level, GOLDEN, key;
    ghost var start := Triple(level, level, GOLDEN);
    if !aligned {
      while |k| >= 24
        invariant Blocks(Triple(a, b, c), k) == Blocks(start, key) && Tail(k) == Tail(key)
      {
        ghost var s := Triple(a, b, c);
        var x := AssembleWord(k[0..8]);
        var y := AssembleWord(k[8..16]);
        var z := AssembleWord(k[16..24]);
        BlockSlices(s, k);
        a, b, c := Mix64(Plus(a, x), Plus(b, y), Plus(c, z));
        k := k[24..];
      }
    } else {
      while |k| >= 24
        invariant Blocks(Triple(a, b, c), k) == Blocks(start, key) && Tail(k) == Tail(key)
      {
        BlockSlices(Triple(a, b, c), k);
        a, b, c := Mix64(Plus(a, Load(k[0..8])), Plus(b, Load(k[8..16])), Plus(c, Load(k[16..24])));
        k := k[24..];
      }
    }
    var n := |k|;
    c := Plus(c, |key|);
    c := AddDown(c, [0] + k[Min(n, 16)..n]);
    b := AddDown(b, k[Min(n, 8)..Min(n, 16)]);
    a := AddDown(a, k[..Min(n, 8)]);
    a, b, c := Mix64(a, b, c);
    h := c;
  }

  lemma BlockSlices(s: Triple, k: Key)
    requires |k| >= 24
    ensures Added(s, k[..24]) == Triple(Plus(s.a, Load(k[0..8])), Plus(s.b, Load(k[8..16])), Plus(s.c, Load(k[16..24])))
  {
    assert k[..24][0..8] == k[0..8] && k[..24][8..16] == k[8..16] && k[..24][16..24] == k[16..24];
  }

  // ----------------------------------------------------------------- no collisions

  lemma LoadCancels(x: Ub8, k: Key, m: Key)
    requires |k| == |m| <= 8 && Plus(x, Load(k)) == Plus(x, Load(m))
    ensures k == m
  {
    PlusCancels(x, Load(k), Load(m));
  }

  lemma AddedInjective(s: Triple, x: Key, y: Key)
    requires |x| == |y| == 24 && Added(s, x) == Added(s, y)
    ensures x == y
  {
    hide Plus, Load;
    LoadCancels(s.a, x[0..8], y[0..8]);
    LoadCancels(s.b, x[8..16], y[8..16]);
    LoadCancels(s.c, x[16..24], y[16..24]);
    assert x == x[0..8] + x[8..16] + x[16..24];
    assert y == y[0..8] + y[8..16] + y[16..24];
  }

  lemma LastInjective(s: Triple, x: Key, y: Key, length: Ub8)
    requires |x| == |y| < 24 && Last(s, x, length) == Last(s, y, length)
    ensures x == y
  {
    hide Plus, Load;
    var n := |x|;
    var m, o := Min(n, 8), Min(n, 16);
    LoadCancels(s.a, x[..m], y[..m]);
    LoadCancels(s.b, x[m..o], y[m..o]);
    var xc, yc := [0] + x[o..n], [0] + y[o..n];
    LoadCancels(Plus(s.c, length), xc, yc);
    assert x[o..n] == xc[1..] && y[o..n] == yc[1..];
    ThreeParts(x, m, o);
    ThreeParts(y, m, o);
  }

  lemma ThreeParts(x: Key, m: nat, o: nat)
    requires m <= o <= |x|
    ensures x == x[..m] + x[m..o] + x[o..|x|]
  {}

  lemma PlusInjective(x: Ub8, y: Ub8, z: Ub8)
    requires Plus(x, z) == Plus(y, z)
    ensures x == y
  {}

  lemma AddedState(s: Triple, t: Triple, k: Key)
    requires |k| == 24 && Added(s, k) == Added(t, k)
    ensures s == t
  {
    hide Plus, Load;
    PlusInjective(s.a, t.a, Load(k[0..8]));
    PlusInjective(s.b, t.b, Load(k[8..16]));
    PlusInjective(s.c, t.c, Load(k[16..24]));
  }

  lemma LastState(s: Triple, t: Triple, k: Key, length: Ub8)
    requires |k| < 24 && Last(s, k, length) == Last(t, k, length)
    ensures s == t
  {
    hide Plus, Load;
    var n := |k|;
    PlusInjective(s.a, t.a, Load(k[..Min(n, 8)]));
    PlusInjective(s.b, t.b, Load(k[Min(n, 8)..Min(n, 16)]));
    PlusInjective(Plus(s.c, length), Plus(t.c, length), Load([0] + k[Min(n, 16)..n]));
    PlusInjective(s.c, t.c, length);
  }

  lemma MixInjective(s: Triple, t: Triple)
    requires Mixed(s) == Mixed(t)
    ensures s == t
  {
    hide Mixed, Unmixed;
    MixBijective(s);
    MixBijective(t);
  }

  /** What follows a block cannot bring two states together. */
  lemma {:induction false} BlocksInjective(s: Triple, t: Triple, k: Key)
    requires Blocks(s, k) == Blocks(t, k)
    ensures s == t
    decreases |k|
  {
    hide Mixed, Added;
    if |k| >= 24 {
      BlocksInjective(Mixed(Added(s, k[..24])), Mixed(Added(t, k[..24])), k[24..]);
      MixInjective(Added(s, k[..24]), Added(t, k[..24]));
      AddedState(s, t, k[..24]);
    }
  }

  lemma {:induction false} BlocksPrefix(s: Triple, p: Key, r: Key)
    requires |p| % 24 == 0
    ensures Blocks(s, p + r) == Blocks(Blocks(s, p), r) && Tail(p + r) == Tail(r)
    decreases |p|
  {
    hide Mixed, Added;
    if p == [] {
      assert p + r == r;
    } else {
      assert (p + r)[..24] == p[..24] && (p + r)[24..] == p[24..] + r;
      BlocksPrefix(Mixed(Added(s, p[..24])), p[24..], r);
    }
  }

  /** Two keys of one length that differ only within one 24-byte block, or only in the bytes after the
      last whole block, end in different states (a, b, c). */
  lemma OneBlockDiffers(p: Key, x: Key, y: Key, q: Key, level: Ub8)
    requires |p| % 24 == 0 && |x| == |y| && x != y && |p + x + q| < WORD
    requires |x| == 24 || (|x| < 24 && q == [])
    ensures HashState(p + x + q, level) != HashState(p + y + q, level)
  {
    hide Mixed, Added, Last;
    var s := Blocks(Triple(level, level, GOLDEN), p);
    var n := |p + x + q|;
    assert p + x + q == p + (x + q) && p + y + q == p + (y + q);
    BlocksPrefix(Triple(level, level, GOLDEN), p, x + q);
    BlocksPrefix(Triple(level, level, GOLDEN), p, y + q);
    if HashState(p + x + q, level) == HashState(p + y + q, level) {
      MixInjective(Last(Blocks(s, x + q), Tail(x + q), n), Last(Blocks(s, y + q), Tail(y + q), n));
      if |x| == 24 {
        BlockThenRest(s, x, y, q, n);
      } else {
        assert x + q == x && y + q == y;
        LastInjective(s, x, y, n);
      }
    }
  }

  lemma BlockThenRest(s: Triple, x: Key, y: Key, q: Key, n: Ub8)
    requires |x| == |y| == 24
    requires Last(Blocks(s, x + q), Tail(x + q), n) == Last(Blocks(s, y + q), Tail(y + q), n)
    ensures x == y
  {
    hide Mixed, Added, Last;
    assert (x + q)[..24] == x && (y + q)[..24] == y && (x + q)[24..] == q && (y + q)[24..] == q;
    LastState(Blocks(s, x + q), Blocks(s, y + q), Tail(q), n);
    BlocksInjective(Mixed(Added(s, x)), Mixed(Added(s, y)), q);
    MixInjective(Added(s, x), Added(s, y));
    AddedInjective(s, x, y);
  }

  /** The low byte of c before the last mix depends on the length alone. */
  lemma LowByte(s: Triple, t: Key, n: Ub8)
    requires |t| < 24
    ensures Last(s, t, n).c % 256 == (s.c + n) % 256
  {
    var z := t[Min(|t|, 16)..|t|];
    var w := [0] + z;
    assert w[1..] == z;
    LoadFits(w);
    assert Load(w) == Word(w) == 256 * Word(z);
    hide Word, Load;
    LowSum(s.c, n, Word(z));
  }

  lemma LowSum(x: Ub8, n: Ub8, w: nat)
    requires 256 * w < WORD
    ensures Plus(Plus(x, n), 256 * w) % 256 == (x + n) % 256
  {
    hide Plus, Wrap;
    PlusTwice(x, n, 256 * w);
    LowMod(x + n + 256 * w);
    LowDrop(x + n, w);
  }

  lemma LowDrop(a: nat, w: nat)
    ensures (a + 256 * w) % 256 == a % 256
  {}

  lemma LowMod(a: nat)
    ensures Wrap(a) % 256 == a % 256
  {
    var q, r := a / WORD, a % WORD;
    var t := r / 256;
    assert a == 256 * (0x100_0000_0000_0000 * q + t) + r % 256;
  }

  /** Two different keys that agree up to a multiple of 24 bytes and then have under 24 more, of equal or of
      different lengths, end in different states. */
  lemma TailsDiffer(p: Key, x: Key, y: Key, level: Ub8)
    requires |p| % 24 == 0 && |x| < 24 && |y| < 24 && x != y && |p| + 24 <= WORD
    ensures HashState(p + x, level) != HashState(p + y, level)
  {
    hide Mixed, Added, Last;
    assert p + x + [] == p + x && p + y + [] == p + y;
    if |x| == |y| {
      OneBlockDiffers(p, x, y, [], level);
    } else {
      var s := Blocks(Triple(level, level, GOLDEN), p);
      BlocksPrefix(Triple(level, level, GOLDEN), p, x);
      BlocksPrefix(Triple(level, level, GOLDEN), p, y);
      LowByte(s, x, |p + x|);
      LowByte(s, y, |p + y|);
      if HashState(p + x, level) == HashState(p + y, level) {
        MixInjective(Last(s, x, |p + x|), Last(s, y, |p + y|));
      }
    }
  }

  /** In particular any two different keys under 24 bytes. */
  lemma ShortKeysDiffer(x: Key, y: Key, level: Ub8)
    requires |x| < 24 && |y| < 24 && x != y
    ensures HashState(x, level) != HashState(y, level)
  {
    assert [] + x == x && [] + y == y;
    TailsDiffer([], x, y, level);
  }
}
