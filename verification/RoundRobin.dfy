/** Which stream a placement group gets: pglookup deals new PGs to the streams in turn. */
module RoundRobin {
  import opened Keys
  import opened LogSpec
  import opened Flash
  import opened Container
  import opened ContainerProofs

  /** From the first state to the second the PGs `ps` came in, in this order, and each got the next stream of
      the list after the one before it. */
  ghost predicate Dealt(st: State, st': State, ps: seq<Pg>) {
    && st.hand < |st.order| && st'.order == st.order
    && st'.hand == Turn(st, |ps|)
    && Newcomers(st.pgs, st'.pgs, ps)
    && KeepStreams(st.pgs, st'.pgs)
    && InTurn(st, st'.pgs, ps)
  }

  ghost predicate KeepStreams(pgs: map<Pg, PgState>, pgs': map<Pg, PgState>) {
    forall p | p in pgs :: p in pgs' && pgs'[p].stream == pgs[p].stream
  }

  ghost predicate InTurn(st: State, pgs': map<Pg, PgState>, ps: seq<Pg>)
    requires st.hand < |st.order|
  {
    forall k | 0 <= k < |ps| :: ps[k] in pgs' && pgs'[ps[k]].stream == st.order[Turn(st, k)]
  }

  /** Where the hand is after k new PGs: one further on the list for each, and from its end to its start. */
  function Turn(st: State, k: nat): (i: nat)
    requires st.hand < |st.order|
    ensures i < |st.order|
  {
    if k == 0 then st.hand
    else if Turn(st, k - 1) + 1 == |st.order| then 0
    else Turn(st, k - 1) + 1
  }

  ghost predicate Newcomers(pgs: map<Pg, PgState>, pgs': map<Pg, PgState>, ps: seq<Pg>) {
    && (forall p :: p in pgs' <==> p in pgs || p in ps)
    && (forall p | p in ps :: p !in pgs)
    && Distinct(ps)
  }

  predicate Distinct(ps: seq<Pg>) { forall i, j | 0 <= i < j < |ps| :: ps[i] != ps[j] }

  /** Some PGs, in some order. */
  ghost predicate Deals(st: State, st': State) { exists ps: seq<Pg> :: Dealt(st, st', ps) }

  // ---------------------------------------------------------------------- steps

  lemma DealtNone(st: State, st': State)
    requires st.hand < |st.order| && st'.order == st.order && st'.hand == st.hand && HomeOf(st'.pgs) == HomeOf(st.pgs)
    ensures Dealt(st, st', []) && Deals(st, st')
  {
    assert forall p :: p in HomeOf(st.pgs) <==> p in st.pgs;
    assert forall p :: p in HomeOf(st'.pgs) <==> p in st'.pgs;
    assert forall p | p in st.pgs :: HomeOf(st'.pgs)[p] == HomeOf(st.pgs)[p];
    assert Dealt(st, st', []);
  }

  lemma WithPgDealt(st: State, p: Pg)
    requires st.hand < |st.order|
    ensures Dealt(st, WithPg(st, p), if p in st.pgs then [] else [p]) && Deals(st, WithPg(st, p))
  {
    if p in st.pgs {
      DealtNone(st, st);
    } else {
      assert Turn(st, 0) == st.hand && Turn(st, 1) == if st.hand + 1 == |st.order| then 0 else st.hand + 1;
      assert InTurn(st, WithPg(st, p).pgs, [p]);
      assert Dealt(st, WithPg(st, p), [p]);
    }
  }

  lemma {:induction false} TurnAdds(a: State, b: State, m: nat, k: nat)
    requires a.hand < |a.order| && b.order == a.order && b.hand == Turn(a, m)
    ensures Turn(b, k) == Turn(a, m + k)
  {
    if k > 0 { TurnAdds(a, b, m, k - 1); }
  }

  lemma NewcomersMore(a: map<Pg, PgState>, b: map<Pg, PgState>, c: map<Pg, PgState>, ps: seq<Pg>, qs: seq<Pg>)
    requires Newcomers(a, b, ps) && Newcomers(b, c, qs)
    ensures Newcomers(a, c, ps + qs)
  {
    var all := ps + qs;
    forall i, j | 0 <= i < j < |all| ensures all[i] != all[j] {
      if i < |ps| <= j { assert ps[i] in b && qs[j - |ps|] in qs; }
    }
  }

  lemma InTurnMore(a: State, b: State, pgs: map<Pg, PgState>, ps: seq<Pg>, qs: seq<Pg>)
    requires a.hand < |a.order| && b.order == a.order && b.hand == Turn(a, |ps|)
    requires InTurn(a, b.pgs, ps) && KeepStreams(b.pgs, pgs) && InTurn(b, pgs, qs)
    ensures InTurn(a, pgs, ps + qs)
  {
    var all := ps + qs;
    forall k | 0 <= k < |all| ensures all[k] in pgs && pgs[all[k]].stream == a.order[Turn(a, k)] {
      if k < |ps| {
        assert all[k] == ps[k];
      } else {
        assert all[k] == qs[k - |ps|];
        TurnAdds(a, b, |ps|, k - |ps|);
      }
      hide Turn;
    }
  }

  /** One stretch after another. */
  lemma DealtThen(a: State, b: State, c: State, ps: seq<Pg>, qs: seq<Pg>)
    requires Dealt(a, b, ps) && Dealt(b, c, qs)
    ensures Dealt(a, c, ps + qs)
  {
    hide Newcomers, InTurn, Turn;
    NewcomersMore(a.pgs, b.pgs, c.pgs, ps, qs);
    TurnAdds(a, b, |ps|, |qs|);
    InTurnMore(a, b, c.pgs, ps, qs);
  }

  lemma DealsThen(a: State, b: State, c: State)
    requires Deals(a, b) && Deals(b, c)
    ensures Deals(a, c)
  {
    hide Dealt;
    var ps: seq<Pg> :| Dealt(a, b, ps);
    var qs: seq<Pg> :| Dealt(b, c, qs);
    DealtThen(a, b, c, ps, qs);
  }

  /** The list, the hand and the streams of all PGs are as they were. */
  ghost predicate Unmoved(st: State, st': State) {
    st'.order == st.order && st'.hand == st.hand && HomeOf(st'.pgs) == HomeOf(st.pgs)
  }

  lemma {:induction false} ReclaimedUnmoved(st: State, s: nat, oldest: Scans)
    requires s in st.streams
    ensures Unmoved(st, Reclaimed(st, s, oldest))
    decreases st.streams[s].seqNext - st.streams[s].seqOldest
  {
    if ReclaimableNow(st, s, oldest) && st.streams[s].seqOldest + 1 < st.streams[s].seqNext {
      ReclaimedFields(st, s);
      hide ReclaimedOne, Reclaimable, MaxTrx, AgersOf, NewestOf, OfPg;
      ReclaimedUnmoved(ReclaimedOne(st, s), s, oldest);
    }
  }

  /** No write moves the hand or a PG. */
  lemma StreamWrittenUnmoved(st: State, s: nat, r: Record, oldest: Scans)
    requires s in st.streams
    ensures Unmoved(st, Bumped(StreamWritten(st, s, r, oldest), r))
  {
    hide Reclaimed, Flushed, MaxTrx, AgersOf, Marked;
    if !Fits(st, s, r) {
      FlushedFields(st, s);
      MarkedHome(st.pgs, st.streams[s].buf);
      ReclaimedUnmoved(Flushed(st, s), s, oldest);
    }
  }

  // -------------------------------------------------------------------- who gets how many

  /** Whole rounds in m turns, and turns since the last of them. */
  function Rounds(n: nat, m: nat): nat
    requires 0 < n
  {
    if m == 0 then 0 else Rounds(n, m - 1) + if Since(n, m - 1) + 1 == n then 1 else 0
  }

  function Since(n: nat, m: nat): (r: nat)
    requires 0 < n
    ensures r < n
  {
    if m == 0 || Since(n, m - 1) + 1 == n then 0 else Since(n, m - 1) + 1
  }

  lemma {:induction false} TurnIs(st: State, m: nat)
    requires st.hand < |st.order|
    ensures var n, r := |st.order|, Since(|st.order|, m);
            Turn(st, m) == if st.hand + r < n then st.hand + r else st.hand + r - n
  {
    if m > 0 { TurnIs(st, m - 1); }
  }

  /** How many of the first m turns fall on position a of the list. */
  function Hits(st: State, m: nat, a: nat): nat
    requires st.hand < |st.order|
  {
    if m == 0 then 0 else Hits(st, m - 1, a) + if Turn(st, m - 1) == a then 1 else 0
  }

  lemma {:induction false} HitsAre(st: State, m: nat, a: nat)
    requires st.hand < |st.order| && a < |st.order|
    ensures var n, d := |st.order|, if st.hand <= a then a - st.hand else a + |st.order| - st.hand;
            Hits(st, m, a) == Rounds(n, m) + if d < Since(n, m) then 1 else 0
  {
    if m > 0 {
      HitsAre(st, m - 1, a);
      TurnIs(st, m - 1);
    }
  }

  /** The new PGs of a stream. */
  function NewIn(st: State, st': State, s: nat): set<Pg> {
    set p | p in st'.pgs && p !in st.pgs && st'.pgs[p].stream == s
  }

  predicate Apart(order: seq<nat>) { forall i, j | 0 <= i < j < |order| :: order[i] != order[j] }

  /** Those of the given PGs that are in a stream. */
  ghost function Within(ps: seq<Pg>, pgs: map<Pg, PgState>, s: nat): set<Pg> {
    set p | p in ps && p in pgs && pgs[p].stream == s
  }

  lemma WithinSnoc(ps: seq<Pg>, q: Pg, pgs: map<Pg, PgState>, s: nat)
    requires q !in ps && q in pgs
    ensures |Within(ps + [q], pgs, s)| == |Within(ps, pgs, s)| + if pgs[q].stream == s then 1 else 0
  {
    assert Within(ps + [q], pgs, s) == if pgs[q].stream == s then Within(ps, pgs, s) + {q} else Within(ps, pgs, s);
  }

  lemma FrontLast(ps: seq<Pg>, m: nat)
    requires 0 < m <= |ps| && Distinct(ps)
    ensures ps[..m] == ps[..m - 1] + [ps[m - 1]] && ps[m - 1] !in ps[..m - 1]
  {}

  lemma {:induction false} NewCounted(st: State, pgs: map<Pg, PgState>, ps: seq<Pg>, a: nat, m: nat)
    requires st.hand < |st.order| && InTurn(st, pgs, ps) && Distinct(ps)
    requires a < |st.order| && Apart(st.order) && m <= |ps|
    ensures |Within(ps[..m], pgs, st.order[a])| == Hits(st, m, a)
  {
    hide Turn, Within, Distinct;
    if m == 0 {
      WithinNone(ps, pgs, st.order[a]);
    } else {
      NewCounted(st, pgs, ps, a, m - 1);
      FrontLast(ps, m);
      assert ps[m - 1] in pgs && pgs[ps[m - 1]].stream == st.order[Turn(st, m - 1)];
      hide InTurn;
      WithinSnoc(ps[..m - 1], ps[m - 1], pgs, st.order[a]);
    }
  }

  lemma WithinNone(ps: seq<Pg>, pgs: map<Pg, PgState>, s: nat)
    ensures |Within(ps[..0], pgs, s)| == 0
  {}

  /** New PGs are spread evenly: any two streams got numbers of them that differ by at most one, and if there
      are no more of them than streams, no two share one. */
  ghost predicate Even(st: State, st': State) {
    && (forall p | p in st'.pgs && p !in st.pgs :: st'.pgs[p].stream in st.order)
    && (forall s, t | s in st.order && t in st.order :: |NewIn(st, st', s)| <= |NewIn(st, st', t)| + 1)
    && (|st'.pgs.Keys - st.pgs.Keys| <= |st.order| ==>
          forall p, q | p in st'.pgs && q in st'.pgs && p !in st.pgs && q !in st.pgs && p != q ::
            st'.pgs[p].stream != st'.pgs[q].stream)
  }

  lemma NewInIs(st: State, st': State, ps: seq<Pg>, a: nat)
    requires Dealt(st, st', ps) && a < |st.order| && Apart(st.order)
    ensures |NewIn(st, st', st.order[a])| == Hits(st, |ps|, a)
  {
    NewCounted(st, st'.pgs, ps, a, |ps|);
    assert ps[..|ps|] == ps;
    hide InTurn, KeepStreams, Hits;
    assert NewIn(st, st', st.order[a]) == Within(ps, st'.pgs, st.order[a]);
  }

  lemma {:induction false} ManyPgs(ps: seq<Pg>)
    requires Distinct(ps)
    ensures |set p | p in ps| == |ps|
  {
    if ps != [] {
      var front, last := ps[..|ps| - 1], ps[|ps| - 1];
      ManyPgs(front);
      assert (set p | p in ps) == (set p | p in front) + {last};
      assert last !in front;
    }
  }

  lemma EvenNumbers(st: State, st': State, ps: seq<Pg>, s: nat, t: nat)
    requires Dealt(st, st', ps) && Apart(st.order) && s in st.order && t in st.order
    ensures |NewIn(st, st', s)| <= |NewIn(st, st', t)| + 1
  {
    hide InTurn, Newcomers, KeepStreams, NewIn, Hits;
    var a: nat :| a < |st.order| && st.order[a] == s;
    var b: nat :| b < |st.order| && st.order[b] == t;
    NewInIs(st, st', ps, a);
    NewInIs(st, st', ps, b);
    HitsAre(st, |ps|, a);
    HitsAre(st, |ps|, b);
  }

  lemma FewApart(st: State, st': State, ps: seq<Pg>, p: Pg, q: Pg)
    requires Dealt(st, st', ps) && Apart(st.order) && |ps| <= |st.order| && p in ps && q in ps && p != q
    ensures p in st'.pgs && q in st'.pgs && st'.pgs[p].stream != st'.pgs[q].stream
  {
    hide Newcomers, KeepStreams, Turn;
    var i: nat :| i < |ps| && ps[i] == p;
    var j: nat :| j < |ps| && ps[j] == q;
    TurnsApart(st, i, j);
  }

  lemma NewAre(st: State, st': State, ps: seq<Pg>)
    requires Dealt(st, st', ps)
    ensures forall p :: p in st'.pgs && p !in st.pgs <==> p in ps
    ensures forall p | p in ps :: p in st'.pgs && st'.pgs[p].stream in st.order
    ensures |st'.pgs.Keys - st.pgs.Keys| == |ps|
  {
    hide Turn;
    forall p | p in ps ensures p in st'.pgs && st'.pgs[p].stream in st.order {
      var k: nat :| k < |ps| && ps[k] == p;
    }
    ManyPgs(ps);
    assert st'.pgs.Keys - st.pgs.Keys == set p | p in ps;
  }

  /** Dealing in turn is even. */
  lemma DealsEven(st: State, st': State)
    requires Deals(st, st') && Apart(st.order)
    ensures Even(st, st')
  {
    hide Dealt, NewIn, Apart;
    var ps: seq<Pg> :| Dealt(st, st', ps);
    NewAre(st, st', ps);
    forall s, t | s in st.order && t in st.order ensures |NewIn(st, st', s)| <= |NewIn(st, st', t)| + 1 {
      EvenNumbers(st, st', ps, s, t);
    }
    if |ps| <= |st.order| {
      forall p, q | p in st'.pgs && q in st'.pgs && p !in st.pgs && q !in st.pgs && p != q
        ensures st'.pgs[p].stream != st'.pgs[q].stream
      {
        FewApart(st, st', ps, p, q);
      }
    }
  }

  lemma {:induction false} SinceIs(n: nat, m: nat)
    requires m < n
    ensures Since(n, m) == m
  {
    if m > 0 { SinceIs(n, m - 1); }
  }

  lemma TurnsApart(st: State, i: nat, j: nat)
    requires st.hand < |st.order| && i < |st.order| && j < |st.order| && i != j
    ensures Turn(st, i) != Turn(st, j)
  {
    SinceIs(|st.order|, i);
    SinceIs(|st.order|, j);
    TurnIs(st, i);
    TurnIs(st, j);
  }
}
