/** Linked lists in memory, as the replacement maps use them: every entry has an address, and each link
    field of all entries is one sequence indexed by address. */
module Lists {

  const NULL: int := -1

  // ----------------------------------------------------------------- linked lists

  ghost predicate Distinct(s: seq<nat>) {
    forall i, j | 0 <= i < j < |s| :: s[i] != s[j]
  }

  ghost predicate Within(s: seq<nat>, n: nat) {
    forall i | 0 <= i < |s| :: s[i] < n
  }

  /** The pointer to a position of a list, null past either end. */
  function At(s: seq<nat>, i: int): int { if 0 <= i < |s| then s[i] else NULL }

  /** `next` links s in order, `prev` in reverse. */
  ghost predicate Forward(next: seq<int>, s: seq<nat>) {
    Within(s, |next|) && forall i | 0 <= i < |s| :: next[s[i]] == At(s, i + 1)
  }

  ghost predicate Backward(prev: seq<int>, s: seq<nat>) {
    Within(s, |prev|) && forall i | 0 <= i < |s| :: prev[s[i]] == At(s, i - 1)
  }

  /** A doubly linked list. */
  ghost predicate DoubleOk(next: seq<int>, prev: seq<int>, s: seq<nat>, head: int, tail: int) {
    && |next| == |prev| && Distinct(s) && Forward(next, s) && Backward(prev, s)
    && head == At(s, 0) && tail == At(s, |s| - 1)
  }

  function Without<T>(s: seq<T>, i: nat): seq<T>
    requires i < |s|
  {
    s[..i] + s[i + 1..]
  }

  lemma WithoutDistinct(s: seq<nat>, i: nat)
    requires Distinct(s) && i < |s|
    ensures Distinct(Without(s, i)) && s[i] !in Without(s, i)
    ensures forall x: nat | x in s && x != s[i] :: x in Without(s, i)
    ensures forall x: nat | x in Without(s, i) :: x in s
  {
    forall x: nat | x in s && x != s[i] ensures x in Without(s, i) {
      var k :| 0 <= k < |s| && s[k] == x;
      assert Without(s, i)[if k < i then k else k - 1] == x;
    }
  }

  lemma WithoutAt<T>(s: seq<T>, i: nat)
    requires i < |s|
    ensures |Without(s, i)| == |s| - 1
    ensures forall j | 0 <= j < i :: Without(s, i)[j] == s[j]
    ensures forall j | i <= j < |s| - 1 :: Without(s, i)[j] == s[j + 1]
  {}

  /** Taking a position out of a singly linked list, by its predecessor. */
  function Bypassed(next: seq<int>, s: seq<nat>, i: nat): (r: seq<int>)
    requires Within(s, |next|) && i < |s|
    ensures |r| == |next|
  {
    if i == 0 then next else next[s[i - 1] := next[s[i]]]
  }

  lemma ForwardWithout(next: seq<int>, s: seq<nat>, i: nat)
    requires Forward(next, s) && Distinct(s) && i < |s|
    ensures Forward(Bypassed(next, s, i), Without(s, i))
  {
    WithoutAt(s, i);
    var t, next' := Without(s, i), Bypassed(next, s, i);
    hide Without;
    forall j | 0 <= j < |t| ensures t[j] < |next'| && next'[t[j]] == At(t, j + 1) {
      if j < i - 1 {
        assert t[j] == s[j] && next'[s[j]] == next[s[j]] == s[j + 1];
        assert t[j + 1] == s[j + 1];
      } else if j == i - 1 {
        assert t[j] == s[i - 1] && next'[s[i - 1]] == next[s[i]] == At(s, i + 1);
        assert i < |t| ==> t[i] == s[i + 1];
      } else {
        assert t[j] == s[j + 1] && next'[s[j + 1]] == next[s[j + 1]];
        assert j + 1 < |t| ==> t[j + 1] == s[j + 2];
      }
    }
  }

  /** Taking a position out of the reverse links, by its successor. */
  function Backpassed(prev: seq<int>, s: seq<nat>, i: nat): (r: seq<int>)
    requires Within(s, |prev|) && i < |s|
    ensures |r| == |prev|
  {
    if i == |s| - 1 then prev else prev[s[i + 1] := prev[s[i]]]
  }

  lemma BackwardWithout(prev: seq<int>, s: seq<nat>, i: nat)
    requires Backward(prev, s) && Distinct(s) && i < |s|
    ensures Backward(Backpassed(prev, s, i), Without(s, i))
  {
    WithoutAt(s, i);
    var t, prev' := Without(s, i), Backpassed(prev, s, i);
    hide Without;
    forall j | 0 <= j < |t| ensures t[j] < |prev'| && prev'[t[j]] == At(t, j - 1) {
      if j < i {
        assert t[j] == s[j] && prev'[s[j]] == prev[s[j]];
        assert j > 0 ==> t[j - 1] == s[j - 1];
      } else if j == i {
        assert t[j] == s[i + 1] && prev'[s[i + 1]] == prev[s[i]] == At(s, i - 1);
        assert i > 0 ==> t[i - 1] == s[i - 1];
      } else {
        assert t[j] == s[j + 1] && prev'[s[j + 1]] == prev[s[j + 1]] == s[j];
        assert t[j - 1] == s[j];
      }
    }
  }

  /** Putting an entry in front of a list. */
  lemma ForwardFront(next: seq<int>, s: seq<nat>, n: nat)
    requires Forward(next, s) && n !in s && n < |next|
    ensures Forward(next[n := At(s, 0)], [n] + s)
  {
    var t := [n] + s;
    forall j | 0 <= j < |t| ensures t[j] < |next| && next[n := At(s, 0)][t[j]] == At(t, j + 1) {
      assert j > 0 ==> t[j] == s[j - 1];
    }
  }

  lemma BackwardFront(prev: seq<int>, s: seq<nat>, n: nat)
    requires Backward(prev, s) && Distinct(s) && n !in s && n < |prev|
    ensures Backward((if s == [] then prev else prev[s[0] := n])[n := NULL], [n] + s)
  {
    hide Backward, Distinct;
    if s != [] { BackwardFrontAt(prev, s, n, 0); }
    var t, prev' := [n] + s, (if s == [] then prev else prev[s[0] := n])[n := NULL];
    assert t[0] == n && |prev'| == |prev|;
    forall j | 0 <= j < |t| ensures t[j] < |prev'| && prev'[t[j]] == At(t, j - 1) {
      if j > 0 { BackwardFrontAt(prev, s, n, j - 1); }
    }
    BackwardIs(prev', t);
  }

  lemma BackwardIs(prev: seq<int>, s: seq<nat>)
    requires forall i | 0 <= i < |s| :: s[i] < |prev| && prev[s[i]] == At(s, i - 1)
    ensures Backward(prev, s)
  {}

  lemma BackwardFrontAt(prev: seq<int>, s: seq<nat>, n: nat, i: nat)
    requires Backward(prev, s) && Distinct(s) && n !in s && n < |prev| && i < |s|
    ensures s[0] < |prev| && s[i] < |prev|
    ensures prev[s[0] := n][n := NULL][s[i]] == if i == 0 then n else s[i - 1]
  {
    assert s[i] in s && prev[s[i]] == At(s, i - 1);
  }

  lemma DoubleFront(next: seq<int>, prev: seq<int>, s: seq<nat>, head: int, tail: int, n: nat)
    requires DoubleOk(next, prev, s, head, tail) && n !in s && n < |next|
    ensures |prev| == |next| && (head == NULL || 0 <= head < |prev|)
    ensures DoubleOk(next[n := head], (if head != NULL then prev[head := n] else prev)[n := NULL], [n] + s, n,
                     if tail == NULL then n else tail)
  {
    ForwardFront(next, s, n);
    BackwardFront(prev, s, n);
    hide Forward, Backward;
  }

  // ------------------------------------------------------------------- bucket chains

  ghost predicate ChainOk(next: seq<int>, c: seq<nat>, first: int) {
    Distinct(c) && Forward(next, c) && first == At(c, 0)
  }

  ghost predicate ChainsOk(next: seq<int>, buckets: seq<int>, chains: seq<seq<nat>>) {
    |buckets| == |chains| && forall b | 0 <= b < |chains| :: ChainOk(next, chains[b], buckets[b])
  }

  /** No entry is on two chains. */
  ghost predicate Apart(chains: seq<seq<nat>>) {
    forall b: nat, c: nat, p: nat | b < |chains| && c < |chains| && b != c && p in chains[b] :: p !in chains[c]
  }

  /** Links that do not change on a list leave it linked. */
  lemma ChainFrame(next: seq<int>, next': seq<int>, c: seq<nat>, first: int)
    requires ChainOk(next, c, first) && |next| <= |next'|
    requires forall p | p in c :: p < |next| && next'[p] == next[p]
    ensures ChainOk(next', c, first)
  {
    forall i | 0 <= i < |c| ensures c[i] < |next'| && next'[c[i]] == At(c, i + 1) {
      assert c[i] in c;
    }
  }

  lemma ChainStep(next: seq<int>, buckets: seq<int>, chains: seq<seq<nat>>, b: nat, j: nat)
    requires ChainsOk(next, buckets, chains) && b < |chains| == |buckets| && j < |chains[b]|
    ensures chains[b][j] < |next| && next[chains[b][j]] == At(chains[b], j + 1)
  {
    assert ChainOk(next, chains[b], buckets[b]);
  }

  lemma InRange(next: seq<int>, c: seq<nat>, first: int, p: nat)
    requires ChainOk(next, c, first) && p in c
    ensures p < |next|
  {}

  /** An entry goes to the front of its bucket. */
  lemma PushChains(next: seq<int>, buckets: seq<int>, chains: seq<seq<nat>>, b: nat, n: nat)
    requires ChainsOk(next, buckets, chains) && b < |chains| && n < |next|
    requires forall c | 0 <= c < |chains| :: n !in chains[c]
    ensures ChainsOk(next[n := buckets[b]], buckets[b := n], chains[b := [n] + chains[b]])
  {
    var next', buckets', chains' := next[n := buckets[b]], buckets[b := n], chains[b := [n] + chains[b]];
    forall c | 0 <= c < |chains| ensures ChainOk(next', chains'[c], buckets'[c]) {
      assert ChainOk(next, chains[c], buckets[c]);
      if c == b {
        ForwardFront(next, chains[b], n);
        hide Forward;
      } else {
        forall p | p in chains[c] ensures p < |next| && next'[p] == next[p] { InRange(next, chains[c], buckets[c], p); }
        hide ChainOk;
        ChainFrame(next, next', chains[c], buckets[c]);
      }
    }
  }

  /** The first free entry is taken. */
  lemma PopFree(next: seq<int>, free: seq<nat>, first: int, v: int)
    requires ChainOk(next, free, first) && free != []
    ensures first == free[0] < |next| && ChainOk(next[free[0] := v], free[1..], next[free[0]])
  {
    var rest, next' := free[1..], next[free[0] := v];
    assert next[free[0]] == At(free, 1);
    forall i | 0 <= i < |rest| ensures rest[i] < |next'| && next'[rest[i]] == At(rest, i + 1) {
      assert rest[i] == free[i + 1];
    }
  }

  /** An entry goes to the front of the free list. */
  lemma PushFree(next: seq<int>, free: seq<nat>, first: int, n: nat)
    requires ChainOk(next, free, first) && n < |next| && n !in free
    ensures ChainOk(next[n := first], [n] + free, n)
  {
    ForwardFront(next, free, n);
    hide Forward;
  }

  /** Links outside the chains do not matter to them. */
  lemma ChainsFrame(next: seq<int>, next': seq<int>, buckets: seq<int>, chains: seq<seq<nat>>)
    requires ChainsOk(next, buckets, chains) && |next| <= |next'|
    requires forall b, p | 0 <= b < |chains| && p in chains[b] && p < |next| :: next'[p] == next[p]
    ensures ChainsOk(next', buckets, chains)
  {
    forall b | 0 <= b < |chains| ensures ChainOk(next', chains[b], buckets[b]) {
      assert ChainOk(next, chains[b], buckets[b]);
      forall p | p in chains[b] ensures p < |next| && next'[p] == next[p] { InRange(next, chains[b], buckets[b], p); }
      hide ChainOk;
      ChainFrame(next, next', chains[b], buckets[b]);
    }
  }

  /** An entry leaves its bucket. */
  lemma UnlinkChains(next: seq<int>, buckets: seq<int>, chains: seq<seq<nat>>, b: nat, j: nat)
    requires ChainsOk(next, buckets, chains) && Apart(chains) && b < |chains| && j < |chains[b]|
    requires Within(chains[b], |next|)
    ensures ChainsOk(Bypassed(next, chains[b], j), if j == 0 then buckets[b := next[chains[b][0]]] else buckets,
                     chains[b := Without(chains[b], j)])
  {
    var next', chains' := Bypassed(next, chains[b], j), chains[b := Without(chains[b], j)];
    var buckets' := if j == 0 then buckets[b := next[chains[b][0]]] else buckets;
    forall c | 0 <= c < |chains| ensures ChainOk(next', chains'[c], buckets'[c]) {
      assert ChainOk(next, chains[c], buckets[c]);
      if c == b {
        UnlinkChain(next, chains[b], buckets[b], j);
      } else {
        forall p | p in chains[c] ensures p < |next| && next'[p] == next[p] { InRange(next, chains[c], buckets[c], p); }
        hide ChainOk, Bypassed;
        ChainFrame(next, next', chains[c], buckets[c]);
      }
    }
  }

  lemma UnlinkChain(next: seq<int>, c: seq<nat>, first: int, j: nat)
    requires ChainOk(next, c, first) && j < |c|
    ensures ChainOk(Bypassed(next, c, j), Without(c, j), if j == 0 then next[c[0]] else first)
  {
    ForwardWithout(next, c, j);
    WithoutDistinct(c, j);
    WithoutAt(c, j);
    assert next[c[0]] == At(c, 1);
    hide Forward, Distinct, Without;
  }

  // ---------------------------------------------------------------------- membership

  /** The used entries are on one chain each, the one their bucket field names, and not on the free list. */
  ghost predicate MembersOk(order: seq<nat>, chains: seq<seq<nat>>, free: seq<nat>, bucket: seq<nat>) {
    && (forall p: nat | p in order :: Placed(p, chains, free, bucket))
    && (forall b: nat | b < |chains| :: Holds(chains[b], b, order, bucket))
  }

  ghost predicate Placed(p: nat, chains: seq<seq<nat>>, free: seq<nat>, bucket: seq<nat>) {
    p !in free && p < |bucket| && bucket[p] < |chains| && p in chains[bucket[p]]
  }

  ghost predicate Holds(c: seq<nat>, b: nat, order: seq<nat>, bucket: seq<nat>) {
    forall p: nat | p in c :: p in order && p < |bucket| && bucket[p] == b
  }

  lemma MemberBucket(order: seq<nat>, chains: seq<seq<nat>>, free: seq<nat>, bucket: seq<nat>, b: nat, p: nat)
    requires MembersOk(order, chains, free, bucket) && b < |chains| && p in chains[b]
    ensures p in order && p < |bucket| && bucket[p] == b && p !in free
  {
    assert Holds(chains[b], b, order, bucket);
    assert Placed(p, chains, free, bucket);
  }

  lemma MembersApart(order: seq<nat>, chains: seq<seq<nat>>, free: seq<nat>, bucket: seq<nat>)
    requires MembersOk(order, chains, free, bucket)
    ensures Apart(chains)
  {
    forall b: nat, c: nat, p: nat | b < |chains| && c < |chains| && b != c && p in chains[b] ensures p !in chains[c] {
      assert Holds(chains[b], b, order, bucket) && Holds(chains[c], c, order, bucket);
    }
  }

  /** Only who is in the order matters, not where. */
  lemma MembersReordered(order: seq<nat>, order': seq<nat>, chains: seq<seq<nat>>, free: seq<nat>, bucket: seq<nat>)
    requires MembersOk(order, chains, free, bucket)
    requires forall p: nat :: p in order <==> p in order'
    ensures MembersOk(order', chains, free, bucket)
  {
    forall b: nat | b < |chains| ensures Holds(chains[b], b, order', bucket) {
      assert Holds(chains[b], b, order, bucket);
    }
  }

  /** The first free entry becomes used, in bucket b and in front of the order. */
  lemma MembersPush(order: seq<nat>, chains: seq<seq<nat>>, free: seq<nat>, bucket: seq<nat>, b: nat)
    requires MembersOk(order, chains, free, bucket) && free != [] && Distinct(free) && free[0] < |bucket| && b < |chains|
    ensures MembersOk([free[0]] + order, chains[b := [free[0]] + chains[b]], free[1..], bucket[free[0] := b])
  {
    var n := free[0];
    var order', chains', free', bucket' := [n] + order, chains[b := [n] + chains[b]], free[1..], bucket[n := b];
    assert n in free && n !in free' && forall p: nat | p in free' :: p in free;
    assert n in order' && n !in order && forall p: nat | p in order :: p in order';
    forall p: nat | p in order' ensures Placed(p, chains', free', bucket') {
      if p == n {
        assert chains'[b][0] == n;
      } else {
        assert p in order;
        assert Placed(p, chains, free, bucket);
        assert chains'[bucket[p]] == (if bucket[p] == b then [n] + chains[b] else chains[bucket[p]]);
      }
    }
    forall c: nat | c < |chains'| ensures Holds(chains'[c], c, order', bucket') {
      assert Holds(chains[c], c, order, bucket);
      assert n !in chains[c];
    }
  }

  /** A used entry becomes free. */
  lemma MembersDrop(order: seq<nat>, chains: seq<seq<nat>>, free: seq<nat>, bucket: seq<nat>, i: nat, b: nat, j: nat)
    requires MembersOk(order, chains, free, bucket) && Distinct(order) && i < |order|
    requires b < |chains| && Distinct(chains[b]) && j < |chains[b]| && chains[b][j] == order[i]
    ensures MembersOk(Without(order, i), chains[b := Without(chains[b], j)], [order[i]] + free, bucket)
  {
    var n := order[i];
    var order', chains', free' := Without(order, i), chains[b := Without(chains[b], j)], [n] + free;
    WithoutDistinct(order, i);
    WithoutDistinct(chains[b], j);
    hide Without, Distinct;
    assert n in chains[b] && Holds(chains[b], b, order, bucket);
    forall p: nat | p in order' ensures Placed(p, chains', free', bucket) {
      assert p in order && p != n;
      assert Placed(p, chains, free, bucket);
    }
    forall c: nat | c < |chains'| ensures Holds(chains'[c], c, order', bucket) {
      assert Holds(chains[c], c, order, bucket);
      forall p: nat | p in chains'[c] ensures p in order' && p < |bucket| && bucket[p] == c {
        assert p in chains[c] && p in order && p != n;
      }
    }
  }

  // -------------------------------------------------------------------- a larger pool

  /** Fields of entries not there yet do not matter to lists. */
  lemma DoubleGrow(next: seq<int>, prev: seq<int>, more: seq<int>, s: seq<nat>, head: int, tail: int)
    requires DoubleOk(next, prev, s, head, tail)
    ensures DoubleOk(next + more, prev + more, s, head, tail)
  {
    hide Distinct;
    assert forall i | 0 <= i < |s| :: (next + more)[s[i]] == next[s[i]] && (prev + more)[s[i]] == prev[s[i]];
  }

  lemma MembersGrow(order: seq<nat>, chains: seq<seq<nat>>, free: seq<nat>, bucket: seq<nat>, more: seq<nat>)
    requires MembersOk(order, chains, [], bucket)
    requires forall p: nat | p in free :: p >= |bucket|
    ensures MembersOk(order, chains, free, bucket + more)
  {
    forall p: nat | p in order ensures Placed(p, chains, free, bucket + more) {
      assert Placed(p, chains, [], bucket);
    }
    forall b: nat | b < |chains| ensures Holds(chains[b], b, order, bucket + more) {
      assert Holds(chains[b], b, order, bucket);
    }
  }

  ghost predicate Between(s: seq<nat>, lo: nat, hi: nat) {
    forall p: nat | p in s :: lo <= p < hi
  }

  /** One more new entry goes on the free list. */
  lemma StackFree(next: seq<int>, free: seq<nat>, first: int, base: nat, i: nat)
    requires ChainOk(next, free, first) && Between(free, base, base + i) && base + i < |next|
    ensures ChainOk(next[base + i := first], [base + i] + free, base + i)
    ensures Between([base + i] + free, base, base + i + 1)
    ensures next[base + i := first][..base] == next[..base]
  {
    assert base + i !in free;
    hide ChainOk;
    PushFree(next, free, first, base + i);
  }

  // ------------------------------------------------------------------ the whole table

  /** Chains, free list and the entries in use fit together. */
  ghost predicate TableOk(next: seq<int>, buckets: seq<int>, chains: seq<seq<nat>>, free: seq<nat>, first: int,
                          order: seq<nat>, bucket: seq<nat>)
  {
    && ChainsOk(next, buckets, chains) && ChainOk(next, free, first) && MembersOk(order, chains, free, bucket)
    && |next| == |bucket|
  }

  lemma TableFacts(next: seq<int>, buckets: seq<int>, chains: seq<seq<nat>>, free: seq<nat>, first: int,
                   order: seq<nat>, bucket: seq<nat>)
    requires TableOk(next, buckets, chains, free, first, order, bucket)
    ensures |buckets| == |chains| && first == At(free, 0) && Distinct(free)
    ensures forall b | 0 <= b < |chains| :: buckets[b] == At(chains[b], 0)
    ensures forall p: nat | p in order :: p < |next| && p !in free
    ensures free != [] ==> free[0] < |next| && free[0] !in order
  {
    hide Forward;
    forall p: nat | p in order ensures p < |next| && p !in free { assert Placed(p, chains, free, bucket); }
    if free != [] {
      assert free[0] in free;
      InRange(next, free, first, free[0]);
    }
  }

  /** The first free entry is put to use in bucket b. */
  lemma TableInsert(next: seq<int>, buckets: seq<int>, chains: seq<seq<nat>>, free: seq<nat>, first: int,
                    order: seq<nat>, bucket: seq<nat>, b: nat)
    requires TableOk(next, buckets, chains, free, first, order, bucket) && free != [] && b < |chains| == |buckets|
    requires free[0] < |next|
    ensures var n := free[0];
            TableOk(next[n := buckets[b]], buckets[b := n], chains[b := [n] + chains[b]], free[1..], next[n],
                    [n] + order, bucket[n := b])
  {
    var n := free[0];
    PopFree(next, free, first, buckets[b]);
    MembersPush(order, chains, free, bucket, b) by { assert Distinct(free); }
    forall c: nat | c < |chains| ensures n !in chains[c] {
      assert n in free && Holds(chains[c], c, order, bucket);
    }
    hide ChainOk, ChainsOk, MembersOk;
    PushChains(next, buckets, chains, b, n);
  }

  /** The links after chain c loses its j-th entry to the free list. */
  function Freed(next: seq<int>, c: seq<nat>, j: nat, first: int): seq<int>
    requires Within(c, |next|) && j < |c|
  {
    Bypassed(next, c, j)[c[j] := first]
  }

  /** The bucket heads after that. */
  function Headed(buckets: seq<int>, next: seq<int>, c: seq<nat>, b: nat, j: nat): seq<int>
    requires Within(c, |next|) && j < |c| && b < |buckets|
  {
    if j == 0 then buckets[b := next[c[0]]] else buckets
  }

  lemma DropChains(next: seq<int>, buckets: seq<int>, chains: seq<seq<nat>>, b: nat, j: nat, first: int)
    requires ChainsOk(next, buckets, chains) && Apart(chains) && b < |chains| == |buckets| && j < |chains[b]|
    requires Within(chains[b], |next|)
    ensures ChainsOk(Freed(next, chains[b], j, first), Headed(buckets, next, chains[b], b, j), chains[b := Without(chains[b], j)])
  {
    var n, chains' := chains[b][j], chains[b := Without(chains[b], j)];
    assert Distinct(chains[b]) by { assert ChainOk(next, chains[b], buckets[b]); }
    WithoutDistinct(chains[b], j);
    UnlinkChains(next, buckets, chains, b, j);
    forall c: nat | c < |chains'| ensures n !in chains'[c] {
      assert n in chains[b];
    }
    hide ChainsOk, Without, Bypassed, Apart, Distinct;
    ChainsFrame(Bypassed(next, chains[b], j), Freed(next, chains[b], j, first), Headed(buckets, next, chains[b], b, j), chains');
  }

  lemma DropFree(next: seq<int>, c: seq<nat>, j: nat, free: seq<nat>, first: int)
    requires ChainOk(next, free, first) && Within(c, |next|) && j < |c|
    requires forall p: nat | p in c :: p !in free
    ensures ChainOk(Freed(next, c, j, first), [c[j]] + free, c[j])
  {
    var next' := Bypassed(next, c, j);
    forall p: nat | p in free ensures p < |next| && next'[p] == next[p] {
      InRange(next, free, first, p);
      assert j > 0 ==> c[j - 1] in c;
    }
    assert c[j] in c;
    hide ChainOk, Bypassed;
    ChainFrame(next, next', free, first);
    PushFree(next', free, first, c[j]);
  }

  /** An entry in use leaves its chain and the order and becomes the first free one. */
  lemma TableDrop(next: seq<int>, buckets: seq<int>, chains: seq<seq<nat>>, free: seq<nat>, first: int,
                  order: seq<nat>, bucket: seq<nat>, i: nat, b: nat, j: nat)
    requires TableOk(next, buckets, chains, free, first, order, bucket) && Distinct(order) && i < |order|
    requires b < |chains| == |buckets| && j < |chains[b]| && chains[b][j] == order[i]
    ensures Within(chains[b], |next|)
    ensures TableOk(Freed(next, chains[b], j, first), Headed(buckets, next, chains[b], b, j),
                    chains[b := Without(chains[b], j)], [order[i]] + free, order[i], Without(order, i), bucket)
  {
    assert ChainOk(next, chains[b], buckets[b]);
    assert Within(chains[b], |next|) && Distinct(chains[b]);
    forall p: nat | p in chains[b] ensures p !in free {
      MemberBucket(order, chains, free, bucket, b, p);
    }
    MembersApart(order, chains, free, bucket);
    hide ChainsOk, ChainOk, MembersOk, Without, Distinct, Apart, Within;
    DropChains(next, buckets, chains, b, j, first);
    DropFree(next, chains[b], j, free, first);
    MembersDrop(order, chains, free, bucket, i, b, j);
  }

  lemma TableReordered(next: seq<int>, buckets: seq<int>, chains: seq<seq<nat>>, free: seq<nat>, first: int,
                       order: seq<nat>, bucket: seq<nat>, order': seq<nat>)
    requires TableOk(next, buckets, chains, free, first, order, bucket)
    requires forall p: nat :: p in order <==> p in order'
    ensures TableOk(next, buckets, chains, free, first, order', bucket)
  {
    hide ChainsOk, ChainOk;
    MembersReordered(order, order', chains, free, bucket);
  }

  /** New entries, all free, when none was free. */
  lemma TableGrow(next: seq<int>, buckets: seq<int>, chains: seq<seq<nat>>, first: int, order: seq<nat>, bucket: seq<nat>,
                  next': seq<int>, free': seq<nat>, first': int, more: seq<nat>)
    requires TableOk(next, buckets, chains, [], first, order, bucket)
    requires |next'| == |next| + |more| && ChainOk(next', free', first')
    requires next <= next' && Between(free', |next|, |next'|)
    ensures TableOk(next', buckets, chains, free', first', order, bucket + more)
  {
    ChainsFrame(next, next', buckets, chains);
    hide ChainsOk, ChainOk;
    MembersGrow(order, chains, free', bucket, more);
  }
}
