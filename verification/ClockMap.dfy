/** CMap: the map of LruMap with clock replacement.  Chains, list and free list are managed by the same
    code; the list keeps the order of insertion, a hit only sets a reference bit, and a hand sweeps the list
    for an entry that is neither pinned nor referenced. */
module ClockMap {
  import opened Keys
  import opened LogSpec
  import opened Lists
  import opened LruMap

  const N_ENTRIES_PER_MALLOC: nat := 10000

  // ------------------------------------------------------------------ the clock's choice

  /** How many steps of the hand from `start` to position i, going round n positions. */
  function Offset(start: nat, i: nat, n: nat): nat
    requires start < n && i < n
  {
    if start <= i then i - start else i + n - start
  }

  /** The position t steps on. */
  function Position(start: nat, t: nat, n: nat): (i: nat)
    requires start < n && t < n
    ensures i < n && Offset(start, i, n) == t
  {
    if start + t < n then start + t else start + t - n
  }

  predicate Spare(es: seq<Entry>, marks: seq<bool>, i: nat)
    requires |es| == |marks| && i < |es|
  {
    es[i].refcnt == 0 && !marks[i]
  }

  /** Second chance: from the hand on, the first entry neither pinned nor referenced; if there is none, the
      first not pinned. */
  ghost predicate SecondChance(es: seq<Entry>, marks: seq<bool>, start: nat, w: nat) {
    && |es| == |marks| && start < |es| && w < |es| && es[w].refcnt == 0
    && if exists i: nat :: i < |es| && Spare(es, marks, i)
       then Spare(es, marks, w) && forall i: nat | i < |es| && Offset(start, i, |es|) < Offset(start, w, |es|) :: !Spare(es, marks, i)
       else forall i: nat | i < |es| && Offset(start, i, |es|) < Offset(start, w, |es|) :: es[i].refcnt != 0
  }

  ghost predicate AnySpare(es: seq<Entry>, marks: seq<bool>)
    requires |es| == |marks|
  {
    exists i: nat :: i < |es| && Spare(es, marks, i)
  }

  /** The bits a sweep leaves that ends at w: those it passed are cleared, which is all of them if it went
      round more than once. */
  ghost predicate PassedOver(es: seq<Entry>, marks0: seq<bool>, marks: seq<bool>, start: nat, w: nat) {
    && |es| == |marks0| == |marks| && start < |es| && w < |es|
    && forall i: nat | i < |es| ::
         marks[i] <==> marks0[i] && AnySpare(es, marks0) && Offset(start, i, |es|) >= Offset(start, w, |es|)
  }

  /** First time round, t steps in: every entry passed was pinned or referenced and has lost its bit. */
  ghost predicate FirstRound(es: seq<Entry>, marks0: seq<bool>, marks: seq<bool>, start: nat, t: nat) {
    && |es| == |marks0| == |marks| && start < |es|
    && forall i: nat | i < |es| ::
         if Offset(start, i, |es|) < t then !Spare(es, marks0, i) && !marks[i] else marks[i] == marks0[i]
  }

  /** Second time round: no bit is set, none was spare, and every entry passed again is pinned. */
  ghost predicate SecondRound(es: seq<Entry>, marks0: seq<bool>, marks: seq<bool>, start: nat, t: nat) {
    && |es| == |marks0| == |marks| && start < |es|
    && forall i: nat | i < |es| ::
         !Spare(es, marks0, i) && !marks[i] && (Offset(start, i, |es|) < t ==> es[i].refcnt != 0)
  }

  ghost predicate Round(es: seq<Entry>, marks0: seq<bool>, marks: seq<bool>, start: nat, t: nat, again: bool) {
    if again then SecondRound(es, marks0, marks, start, t) else FirstRound(es, marks0, marks, start, t)
  }

  /** The hand passes an entry. */
  lemma PassEntry(es: seq<Entry>, marks0: seq<bool>, marks: seq<bool>, start: nat, t: nat, again: bool)
    requires Round(es, marks0, marks, start, t, again) && t < |es| == |marks|
    requires start < |es| && !Spare(es, marks, Position(start, t, |es|))
    ensures Round(es, marks0, marks[Position(start, t, |es|) := false], start, t + 1, again)
  {
    var p := Position(start, t, |es|);
    forall i: nat | i < |es| && i != p ensures Offset(start, i, |es|) != t {}
  }

  /** The hand comes round. */
  lemma NextRound(es: seq<Entry>, marks0: seq<bool>, marks: seq<bool>, start: nat)
    requires Round(es, marks0, marks, start, |es|, false)
    ensures Round(es, marks0, marks, start, 0, true)
  {}

  lemma Chosen(es: seq<Entry>, marks0: seq<bool>, marks: seq<bool>, start: nat, t: nat, again: bool)
    requires Round(es, marks0, marks, start, t, again) && t < |es| == |marks| && start < |es|
    requires Spare(es, marks, Position(start, t, |es|))
    ensures SecondChance(es, marks0, start, Position(start, t, |es|))
    ensures PassedOver(es, marks0, marks, start, Position(start, t, |es|))
  {
    var w := Position(start, t, |es|);
    assert !again ==> Spare(es, marks0, w);
  }

  /** An unpinned entry is not passed in the second round. */
  lemma NotTwice(es: seq<Entry>, marks0: seq<bool>, marks: seq<bool>, start: nat, t: nat, v: nat)
    requires Round(es, marks0, marks, start, t, true) && v < |es| && es[v].refcnt == 0
    ensures t <= Offset(start, v, |es|) < |es|
  {}

  /** Steps into the present round. */
  function RoundStep(steps: nat, n: nat): (t: nat) { if steps < n then steps else steps - n }

  lemma NextPosition(start: nat, t: nat, n: nat)
    requires start < n && t < n
    ensures Position(start, if t + 1 < n then t + 1 else 0, n) ==
            (if Position(start, t, n) + 1 < n then Position(start, t, n) + 1 else 0)
  {}

  lemma RoundStarts(es: seq<Entry>, marks: seq<bool>, start: nat)
    requires |es| == |marks| && start < |es|
    ensures Round(es, marks, marks, start, 0, false) && Position(start, 0, |es|) == start
  {}

  // ------------------------------------------------------------------- when it stops

  /** The hand and the bits after k passes of the sweep, whether or not it should have stopped. */
  function HandAfter(start: nat, k: nat, n: nat): (p: nat)
    requires start < n
    ensures p < n
  {
    if k == 0 then start else var p := HandAfter(start, k - 1, n); if p + 1 < n then p + 1 else 0
  }

  function BitsAfter(marks: seq<bool>, start: nat, k: nat): (m: seq<bool>)
    requires start < |marks|
    ensures |m| == |marks|
  {
    if k == 0 then marks else BitsAfter(marks, start, k - 1)[HandAfter(start, k - 1, |marks|) := false]
  }

  predicate StopsAfter(es: seq<Entry>, marks: seq<bool>, start: nat, k: nat)
    requires start < |es| == |marks|
  {
    Spare(es, BitsAfter(marks, start, k), HandAfter(start, k, |es|))
  }

  /** The first pass from the k-th on at which the sweep stops, in two rounds. */
  function Stop(es: seq<Entry>, marks: seq<bool>, start: nat, k: nat): (stop: nat)
    requires start < |es| == |marks|
    ensures k <= stop
    decreases 2 * |es| - k
  {
    if k >= 2 * |es| || StopsAfter(es, marks, start, k) then k else Stop(es, marks, start, k + 1)
  }

  lemma {:induction false} HandIs(start: nat, k: nat, n: nat)
    requires start < n && k < 2 * n
    ensures HandAfter(start, k, n) == Position(start, RoundStep(k, n), n)
  {
    if k > 0 {
      HandIs(start, k - 1, n);
      NextPosition(start, RoundStep(k - 1, n), n);
    }
  }

  lemma {:induction false} Halts(es: seq<Entry>, marks: seq<bool>, start: nat, v: nat, k: nat)
    requires start < |es| == |marks| && Unpinned(es, v) && k < 2 * |es|
    requires Round(es, marks, BitsAfter(marks, start, k), start, RoundStep(k, |es|), k >= |es|)
    ensures var stop := Stop(es, marks, start, k);
            && stop < 2 * |es| && StopsAfter(es, marks, start, stop)
            && SecondChance(es, marks, start, HandAfter(start, stop, |es|))
            && PassedOver(es, marks, BitsAfter(marks, start, stop), start, HandAfter(start, stop, |es|))
    decreases 2 * |es| - k
  {
    hide Round, SecondChance, PassedOver, Position, Offset, Spare;
    var n, t := |es|, RoundStep(k, |es|);
    HandIs(start, k, n);
    if StopsAfter(es, marks, start, k) {
      Chosen(es, marks, BitsAfter(marks, start, k), start, t, k >= n);
    } else {
      PassEntry(es, marks, BitsAfter(marks, start, k), start, t, k >= n);
      if k >= n { NotTwice(es, marks, BitsAfter(marks, start, k + 1), start, t + 1, v); }
      if t + 1 == n { NextRound(es, marks, BitsAfter(marks, start, k + 1), start); }
      Halts(es, marks, start, v, k + 1);
    }
  }

  /** The sweep ends exactly when some entry is not pinned, and then within two rounds. */
  lemma SweepStopsIff(es: seq<Entry>, marks: seq<bool>, start: nat)
    requires start < |es| == |marks|
    ensures (exists k: nat :: StopsAfter(es, marks, start, k)) <==> (exists v: nat :: Unpinned(es, v))
    ensures (exists k: nat :: StopsAfter(es, marks, start, k)) ==> exists k: nat :: k < 2 * |es| && StopsAfter(es, marks, start, k)
  {
    if v: nat :| Unpinned(es, v) {
      RoundStarts(es, marks, start);
      Halts(es, marks, start, v, 0);
    }
    if k: nat :| StopsAfter(es, marks, start, k) {
      assert Unpinned(es, HandAfter(start, k, |es|));
    }
  }

  function Pinned(e: Entry, step: int): Entry { e.(refcnt := e.refcnt + step) }

  predicate Unpinned(es: seq<Entry>, v: nat) { v < |es| && es[v].refcnt == 0 }

  // ------------------------------------------------------------- the clock as a value

  /** Entries and reference bits in list order, and where the hand stands: past the end if it is null. */
  datatype Clock = Clock(es: seq<Entry>, bits: seq<bool>, hand: nat)

  ghost predicate ClockOk(c: Clock) { |c.bits| == |c.es| && c.hand <= |c.es| && Unique(c.es) }

  /** Where a sweep starts. */
  function StartOf(c: Clock): (start: nat)
    ensures c.es != [] ==> start < |c.es|
  {
    if c.hand < |c.es| then c.hand else 0
  }

  /** How many entries a sweep passes, and where it ends. */
  function Passes(c: Clock): nat
    requires |c.bits| == |c.es| != 0
  {
    Stop(c.es, c.bits, StartOf(c), 0)
  }

  function Choice(c: Clock): (w: nat)
    requires |c.bits| == |c.es| != 0
    ensures w < |c.es|
  {
    HandAfter(StartOf(c), Passes(c), |c.es|)
  }

  /** replace_lru: the entry where the sweep ends goes, and the hand stands on its successor. */
  function Evicted(c: Clock): Clock
    requires |c.bits| == |c.es| != 0
  {
    var w := Choice(c);
    Clock(Without(c.es, w), Without(BitsAfter(c.bits, StartOf(c), Passes(c)), w), w)
  }

  /** The sweep gives every entry a second chance. */
  lemma ChoiceIs(c: Clock, v: nat)
    requires |c.bits| == |c.es| && Unpinned(c.es, v)
    ensures Passes(c) < 2 * |c.es| && StopsAfter(c.es, c.bits, StartOf(c), Passes(c))
    ensures SecondChance(c.es, c.bits, StartOf(c), Choice(c)) && c.es[Choice(c)].refcnt == 0
    ensures PassedOver(c.es, c.bits, BitsAfter(c.bits, StartOf(c), Passes(c)), StartOf(c), Choice(c))
  {
    hide Round, PassedOver;
    RoundStarts(c.es, c.bits, StartOf(c));
    Halts(c.es, c.bits, StartOf(c), v, 0);
  }

  function Front(c: Clock, e: Entry): Clock { Clock([e] + c.es, [false] + c.bits, c.hand + 1) }

  predicate Overfull(c: Clock, maxEntries: nat) { maxEntries > 0 && |c.es| >= maxEntries }

  /** A new entry, pinned and not referenced, goes in front; when the map was full the clock's choice goes. */
  function Joined(c: Clock, e: Entry, maxEntries: nat): Clock
    requires |c.bits| == |c.es|
  {
    if Overfull(c, maxEntries) then Evicted(Front(c, e)) else Front(c, e)
  }

  function Gone(c: Clock, e: Entry, maxEntries: nat): Option<Entry>
    requires |c.bits| == |c.es|
  {
    if Overfull(c, maxEntries) then Some(Front(c, e).es[Choice(Front(c, e))]) else None
  }

  /** A hit: new contents, more pins, and the reference bit if the map has a limit. */
  function Struck(c: Clock, i: nat, data: seq<byte>, pins: int, maxEntries: nat): Clock
    requires i < |c.es| == |c.bits|
  {
    Clock(c.es[i := Pinned(c.es[i].(contents := data), pins)], if maxEntries != 0 then c.bits[i := true] else c.bits, c.hand)
  }

  /** An entry leaves the list, and the hand stays on its entry or moves off the one that leaves. */
  function Removed(c: Clock, i: nat): Clock
    requires i < |c.es| == |c.bits| && c.hand <= |c.es|
  {
    Clock(Without(c.es, i), Without(c.bits, i), if i < c.hand then c.hand - 1 else c.hand)
  }

  /** What a call relies on: a new entry finds room or something unpinned, or the sweep would not end; a pin
      count stays below the bound that the code asserts.  Clear is left out. */
  ghost predicate Allowed(c: Clock, op: Op, maxEntries: nat) {
    && !op.Clear?
    && ((op.Create? || op.Set?) && Find(c.es, op.k).None? && Overfull(c, maxEntries) ==> exists v: nat :: Unpinned(c.es, v))
    && (op.Get? && Find(c.es, op.k).Some? ==> c.es[Find(c.es, op.k).value].refcnt < 10000)
  }

  /** The clock after an operation. */
  ghost function Tick(c: Clock, op: Op, maxEntries: nat): Clock
    requires ClockOk(c) && Allowed(c, op, maxEntries)
  {
    match (op, Find(c.es, op.k))
    case (Create(k, data), None) => Joined(c, Entry(k, data, 1), maxEntries)
    case (Set(k, data), None) => Joined(c, Entry(k, data, 1), maxEntries)
    case (Set(_, data), Some(i)) => Struck(c, i, data, 0, maxEntries)
    case (Get(_), Some(i)) => Struck(c, i, c.es[i].contents, 1, maxEntries)
    case (Update(_, data), Some(i)) => Struck(c, i, data, 0, maxEntries)
    case (AddRef(_, step), Some(i)) => c.(es := c.es[i := Pinned(c.es[i], step)])
    case (Delete(_), Some(i)) => Removed(c, i)
    case _ => c
  }

  /** The entry an operation evicts. */
  function GoneBy(c: Clock, op: Op, maxEntries: nat): Option<Entry>
    requires |c.bits| == |c.es|
  {
    if (op.Create? || op.Set?) && Find(c.es, op.k).None? then Gone(c, Entry(op.k, op.data, 1), maxEntries) else None
  }

  // ---------------------------------------------------------------- the plain map

  /** Making an entry adds it and, when the map was full, takes out an unpinned key that the second chance
      rule picks, never the new one, and hands it over. */
  ghost predicate MapMade(m: map<nat, Entry>, m': map<nat, Entry>, c: Clock, e: Entry, maxEntries: nat, gone: Option<Entry>) {
    if maxEntries > 0 && |c.es| >= maxEntries
    then exists w: nat ::
           && SecondChance([e] + c.es, [false] + c.bits, StartOf(Front(c, e)), w)
           && 0 < w <= |c.es| && c.es[w - 1].refcnt == 0 && gone == Some(c.es[w - 1])
           && m' == m[e.key := e] - {c.es[w - 1].key}
    else gone.None? && m' == m[e.key := e]
  }

  /** What an operation does to the plain map, reference counts included, and what it evicts. */
  ghost predicate MapTick(m: map<nat, Entry>, m': map<nat, Entry>, c: Clock, op: Op, maxEntries: nat, gone: Option<Entry>) {
    match op
    case Clear => true
    case Delete(k) => m' == m - {k} && gone.None?
    case Get(k) => m' == (if k in m then m[k := Pinned(m[k], 1)] else m) && gone.None?
    case AddRef(k, step) => m' == (if k in m then m[k := Pinned(m[k], step)] else m) && gone.None?
    case Update(k, data) => m' == (if k in m then m[k := m[k].(contents := data)] else m) && gone.None?
    case Create(k, data) =>
      if k in m then m' == m && gone.None? else MapMade(m, m', c, Entry(k, data, 1), maxEntries, gone)
    case Set(k, data) =>
      if k in m then m' == m[k := m[k].(contents := data)] && gone.None?
      else MapMade(m, m', c, Entry(k, data, 1), maxEntries, gone)
  }

  /** Bits and hand when no entry comes or goes: the entries stay in their places and the hand on its own, and
      with a limit exactly a hit is marked as referenced. */
  ghost predicate Stayed(c: Clock, c': Clock, op: Op, maxEntries: nat) {
    var hit := maxEntries != 0 && (op.Get? || op.Set? || op.Update?);
    && |c'.es| == |c.es| == |c'.bits| == |c.bits| && c'.hand == c.hand
    && forall i | 0 <= i < |c.es| ::
         c'.es[i].key == c.es[i].key && (c'.bits[i] <==> c.bits[i] || (hit && c.es[i].key == op.k))
  }

  /** When entry w goes: the others keep their order and their bits, and the hand stays on its entry, or goes on
      to the next if that is the one. */
  ghost predicate Left(es: seq<Entry>, bits: seq<bool>, hand: nat, c': Clock, w: nat) {
    && |bits| == |es| && w < |es| && hand <= |es| && |c'.es| == |c'.bits| == |es| - 1 && c'.hand <= |c'.es|
    && (forall i | 0 <= i < |c'.es| ::
          c'.es[i] == es[if i < w then i else i + 1] && c'.bits[i] == bits[if i < w then i else i + 1])
    && var h := if hand == w then hand + 1 else hand;
       if h == |es| then c'.hand == |c'.es| else c'.hand < |c'.es| && c'.es[c'.hand] == es[h]
  }

  /** When an entry is made: it stands in front, unreferenced, and the hand stays on its entry; if the map was
      full a sweep ends at an entry, and that goes, the hand with it. */
  ghost predicate Came(c: Clock, c': Clock, e: Entry, maxEntries: nat) {
    var es, marks := [e] + c.es, [false] + c.bits;
    if maxEntries > 0 && |c.es| >= maxEntries
    then exists w: nat, left: seq<bool> ::
           SecondChance(es, marks, StartOf(Front(c, e)), w) && PassedOver(es, marks, left, StartOf(Front(c, e)), w) &&
           Left(es, left, w, c', w)
    else c'.es == es && c'.bits == marks && c'.hand == c.hand + 1
  }

  /** What an operation does to order, bits and hand. */
  ghost predicate Moves(c: Clock, c': Clock, op: Op, maxEntries: nat)
    requires !op.Clear?
  {
    match (op, Find(c.es, op.k))
    case (Create(k, data), None) => Came(c, c', Entry(k, data, 1), maxEntries)
    case (Set(k, data), None) => Came(c, c', Entry(k, data, 1), maxEntries)
    case (Delete(_), Some(i)) => Left(c.es, c.bits, c.hand, c', i)
    case _ => Stayed(c, c', op, maxEntries)
  }

  lemma JoinedMap(c: Clock, e: Entry, maxEntries: nat)
    requires ClockOk(c) && Find(c.es, e.key).None? && e.refcnt != 0
    requires Overfull(c, maxEntries) ==> exists v: nat :: Unpinned(c.es, v)
    ensures ClockOk(Joined(c, e, maxEntries))
    ensures MapMade(AsMap(c.es), AsMap(Joined(c, e, maxEntries).es), c, e, maxEntries, Gone(c, e, maxEntries))
    ensures |Joined(c, e, maxEntries).es| == |c.es| + if Overfull(c, maxEntries) then 0 else 1
  {
    hide AsMap, Find, Without, SecondChance, Choice, StartOf, Passes, Unique;
    MapFront(c.es, e);
    if Overfull(c, maxEntries) {
      var f := Front(c, e);
      var v: nat :| Unpinned(c.es, v);
      assert Unpinned(f.es, v + 1);
      ChoiceIs(f, v + 1);
      var w := Choice(f);
      MapWithout(f.es, w);
      WithoutAt(f.es, w);
      WithoutAt(BitsAfter(f.bits, StartOf(f), Passes(f)), w);
      assert w > 0 && f.es[w] == c.es[w - 1];
    }
  }

  lemma StruckMap(c: Clock, i: nat, e: Entry)
    requires ClockOk(c) && i < |c.es| && e.key == c.es[i].key
    ensures Unique(c.es[i := e]) && AsMap(c.es[i := e]) == AsMap(c.es)[e.key := e] && AsMap(c.es)[e.key] == c.es[i]
  {
    hide AsMap, Unique;
    MapSet(c.es, i, e);
    MapAt(c.es, i);
  }

  lemma RemovedMap(c: Clock, i: nat)
    requires ClockOk(c) && i < |c.es|
    ensures ClockOk(Removed(c, i)) && AsMap(Removed(c, i).es) == AsMap(c.es) - {c.es[i].key}
  {
    hide AsMap, Without, Unique;
    MapWithout(c.es, i);
    WithoutAt(c.es, i);
    WithoutAt(c.bits, i);
  }

  /** The plain map follows, the clock stays in order, and a limit that is kept stays kept. */
  lemma TickMap(c: Clock, op: Op, maxEntries: nat)
    requires ClockOk(c) && Allowed(c, op, maxEntries)
    ensures var c' := Tick(c, op, maxEntries);
            && ClockOk(c') && MapTick(AsMap(c.es), AsMap(c'.es), c, op, maxEntries, GoneBy(c, op, maxEntries))
            && (maxEntries > 0 && |c.es| <= maxEntries ==> |c'.es| <= maxEntries)
  {
    hide Find, AsMap, Joined, Unique, MapMade, Without;
    AsMapIs(c.es, op.k);
    var found := Find(c.es, op.k);
    if found.Some? {
      var i := found.value;
      match op {
        case Set(_, data) => StruckMap(c, i, Pinned(c.es[i].(contents := data), 0));
        case Get(_) => StruckMap(c, i, Pinned(c.es[i], 1));
        case Update(_, data) => StruckMap(c, i, Pinned(c.es[i].(contents := data), 0));
        case AddRef(_, step) => StruckMap(c, i, Pinned(c.es[i], step));
        case Delete(_) => RemovedMap(c, i); WithoutAt(c.es, i);
        case _ =>
      }
    } else if op.Create? || op.Set? {
      JoinedMap(c, Entry(op.k, op.data, 1), maxEntries);
    }
  }

  lemma CameIs(c: Clock, e: Entry, maxEntries: nat)
    requires ClockOk(c) && (Overfull(c, maxEntries) ==> exists v: nat :: Unpinned(c.es, v))
    ensures Came(c, Joined(c, e, maxEntries), e, maxEntries)
  {
    hide SecondChance, PassedOver, Choice, StartOf, Passes, Without, Unique, Left;
    if Overfull(c, maxEntries) {
      var f := Front(c, e);
      var v: nat :| Unpinned(c.es, v);
      assert Unpinned(f.es, v + 1);
      ChoiceIs(f, v + 1);
      LeftIs(f.es, BitsAfter(f.bits, StartOf(f), Passes(f)), Choice(f), Choice(f));
    }
  }

  lemma LeftIs(es: seq<Entry>, bits: seq<bool>, hand: nat, w: nat)
    requires |bits| == |es| && w < |es| && hand <= |es|
    ensures Left(es, bits, hand, Clock(Without(es, w), Without(bits, w), if w < hand then hand - 1 else hand), w)
  {
    WithoutAt(es, w);
    WithoutAt(bits, w);
    hide Without;
  }

  lemma StayedIs(c: Clock, op: Op, maxEntries: nat)
    requires ClockOk(c) && Allowed(c, op, maxEntries)
    requires Find(c.es, op.k).Some? && (op.Get? || op.Set? || op.Update? || op.AddRef?)
    ensures Stayed(c, Tick(c, op, maxEntries), op, maxEntries)
  {
    hide Find;
    var i := Find(c.es, op.k).value;
    assert c.es[i].key == op.k;
  }

  lemma TickMoves(c: Clock, op: Op, maxEntries: nat)
    requires ClockOk(c) && Allowed(c, op, maxEntries)
    ensures Moves(c, Tick(c, op, maxEntries), op, maxEntries)
  {
    hide Find, Joined, Without, Came, Left, Unique;
    if Find(c.es, op.k).Some? {
      if op.Delete? { LeftIs(c.es, c.bits, c.hand, Find(c.es, op.k).value); }
      else if !op.Create? { StayedIs(c, op, maxEntries); }
    } else if op.Create? || op.Set? {
      CameIs(c, Entry(op.k, op.data, 1), maxEntries);
    } else {
      NotFound(c.es, op.k);
    }
  }

  lemma NotFound(es: seq<Entry>, k: nat)
    requires Find(es, k).None?
    ensures forall i | 0 <= i < |es| :: es[i].key != k
  {}

  // ------------------------------------------------------------------- positions

  /** Position of an entry in the list; past the end if it is not there, as for null. */
  function IndexOf(s: seq<nat>, x: int): (i: nat)
    ensures i <= |s| && (i < |s| ==> s[i] == x) && forall j | 0 <= j < i :: s[j] != x
  {
    if s == [] || s[0] == x then 0
    else
      var i := IndexOf(s[1..], x);
      assert forall j | 1 <= j < |s| :: s[j] == s[1..][j - 1];
      i + 1
  }

  lemma IndexOfIs(s: seq<nat>, x: int, i: nat)
    requires i <= |s| && Distinct(s) && (if i < |s| then s[i] == x else forall j | 0 <= j < |s| :: s[j] != x)
    ensures IndexOf(s, x) == i
  {
    hide IndexOf;
    var m := IndexOf(s, x);
  }

  lemma IndexFront(s: seq<nat>, n: nat, x: int)
    requires Distinct(s) && n !in s && n != x
    ensures IndexOf([n] + s, x) == IndexOf(s, x) + 1
  {
    hide IndexOf;
    var t := [n] + s;
    assert forall j | 0 < j < |t| :: t[j] == s[j - 1] && s[j - 1] in s;
    IndexOfIs(t, x, IndexOf(s, x) + 1);
  }

  lemma IndexWithout(s: seq<nat>, i: nat, x: int)
    requires Distinct(s) && i < |s| && s[i] != x
    ensures IndexOf(Without(s, i), x) == if i < IndexOf(s, x) then IndexOf(s, x) - 1 else IndexOf(s, x)
  {
    WithoutDistinct(s, i);
    WithoutAt(s, i);
    hide IndexOf, Without;
    var m := IndexOf(s, x);
    IndexOfIs(Without(s, i), x, if i < m then m - 1 else m);
  }

  lemma IndexNext(s: seq<nat>, w: nat)
    requires Distinct(s) && w < |s|
    ensures IndexOf(Without(s, w), At(s, w + 1)) == w
  {
    WithoutDistinct(s, w);
    WithoutAt(s, w);
    hide IndexOf, Without;
    IndexOfIs(Without(s, w), At(s, w + 1), w);
  }

  /** Reference bits in list order. */
  function Marks(order: seq<nat>, ref: seq<bool>): (m: seq<bool>)
    requires Within(order, |ref|)
    ensures |m| == |order| && forall i | 0 <= i < |m| :: m[i] == ref[order[i]]
  {
    seq(|order|, i requires 0 <= i < |order| => ref[order[i]])
  }

  lemma MarksSet(order: seq<nat>, ref: seq<bool>, i: nat)
    requires Distinct(order) && Within(order, |ref|) && i < |order|
    ensures Marks(order, ref[order[i] := true]) == Marks(order, ref)[i := true]
  {}

  /** A new entry in front with its bit clear. */
  lemma MarksFront(order: seq<nat>, ref: seq<bool>, ref': seq<bool>, n: nat)
    requires Within(order, |ref|) && n !in order && n < |ref'| && |ref| <= |ref'| && !ref'[n]
    requires forall p | 0 <= p < |ref| && p != n :: ref'[p] == ref[p]
    requires Within([n] + order, |ref'|)
    ensures Marks([n] + order, ref') == [false] + Marks(order, ref)
  {
    var order' := [n] + order;
    assert forall i | 0 < i < |order'| :: order'[i] == order[i - 1] && order[i - 1] in order;
  }

  lemma MarksCleared(order: seq<nat>, ref: seq<bool>, w: nat)
    requires Distinct(order) && Within(order, |ref|) && w < |order|
    ensures Marks(order, ref[order[w] := false]) == Marks(order, ref)[w := false]
  {}

  lemma MarksWithout(order: seq<nat>, ref: seq<bool>, i: nat)
    requires Within(order, |ref|) && i < |order|
    ensures Within(Without(order, i), |ref|) && Marks(Without(order, i), ref) == Without(Marks(order, ref), i)
  {
    WithoutAt(order, i);
    WithoutAt(Marks(order, ref), i);
    hide Without;
    assert forall j | 0 <= j < |order| - 1 :: Without(order, i)[j] == order[if j < i then j else j + 1];
  }

  lemma FrontIn(n: nat, order: seq<nat>, size: nat)
    requires Within([n] + order, size)
    ensures n < size && forall p | p in order :: p in [n] + order
  {
    assert ([n] + order)[0] == n;
  }

  lemma HandMoves(order: seq<nat>, w: nat)
    requires Distinct(order) && w < |order|
    ensures At(order, w + 1) == NULL || At(order, w + 1) in Without(order, w)
  {
    WithoutAt(order, w);
    hide Without;
    if w + 1 < |order| { assert Without(order, w)[w] == order[w + 1]; }
  }

  lemma OthersStay(order: seq<nat>, i: nat)
    requires Distinct(order) && i < |order|
    ensures forall p: nat | p in order && p != order[i] :: p in Without(order, i)
  {
    WithoutDistinct(order, i);
  }

  // -------------------------------------------------------------------------- the map

  class CMap {
    const table: TlMap            // buckets, list and free list
    const maxEntries: nat
    var ref: seq<bool>          // ref of every entry
    var hand: int               // clock_hand

    ghost predicate Consistent()
      reads this, table
    {
      && table.Consistent() && table.maxEntries == 0 && |ref| == table.entries
      && (hand == NULL || (0 <= hand && hand in table.lru))
    }

    ghost predicate Valid()
      reads this, table
    {
      Consistent() && (maxEntries > 0 ==> table.nEntries <= maxEntries)
    }

    /** Reference bits in list order. */
    ghost function Bits(): seq<bool>
      requires Consistent()
      reads this, table
    {
      table.RecordsFacts();
      Marks(table.lru, ref)
    }

    ghost function Now(): Clock
      requires Consistent()
      reads this, table
    {
      Clock(table.View(), Bits(), IndexOf(table.lru, hand))
    }

    lemma NowOk()
      requires Consistent()
      ensures ClockOk(Now()) && |Now().es| == |table.lru| == table.nEntries
    {
      table.ViewUnique();
      hide DoubleOk, TableOk, Unique;
    }

    constructor (nbuckets: nat, maxEntries: nat, hash: nat -> nat)
      requires nbuckets > 0
      ensures Valid() && Now() == Clock([], [], 0) && this.maxEntries == maxEntries && fresh(table)
    {
      table := new TlMap(nbuckets, 0, hash, N_ENTRIES_PER_MALLOC);
      this.maxEntries := maxEntries;
      ref := [];
      hand := NULL;
    }

    /** One step of the hand, from the tail back to the head. */
    method Advance(q: nat, ghost w: nat) returns (next: nat)
      requires DoubleOk(table.nextLru, table.prevLru, table.lru, table.lruHead, table.lruTail)
      requires w < |table.lru| && q == table.lru[w]
      ensures next == table.lru[if w + 1 < |table.lru| then w + 1 else 0]
    {
      table.LruPointers(w);
      hide DoubleOk;
      var r := table.nextLru[q];
      if r == NULL {
        r := table.lruHead;
      }
      next := r;
    }

    /** Where the sweep is after some passes. */
    ghost predicate Sweeping(c: Clock, steps: nat, p: nat)
      reads this, table
    {
      && |c.es| == |table.lru| == |c.bits| != 0 && Within(table.lru, |ref|)
      && Marks(table.lru, ref) == BitsAfter(c.bits, StartOf(c), steps)
      && p == table.lru[HandAfter(StartOf(c), steps, |c.es|)]
    }

    /** Body of the sweep: clear the bit and go on. */
    method Pass(p: nat, ghost c: Clock, ghost steps: nat) returns (q: nat)
      requires Sweeping(c, steps, p) && p < |ref| && Distinct(table.lru)
      requires DoubleOk(table.nextLru, table.prevLru, table.lru, table.lruHead, table.lruTail)
      modifies `ref
      ensures |ref| == old(|ref|) && Sweeping(c, steps + 1, q)
    {
      hide DoubleOk, Distinct, StartOf;
      ghost var w := HandAfter(StartOf(c), steps, |c.es|);
      MarksCleared(table.lru, ref, w);
      ref := ref[p := false];
      q := Advance(p, w);
    }

    /** The loop's test is whether the entry under the hand is spare. */
    lemma SweepAt(c: Clock, steps: nat, p: nat)
      requires Consistent() && c.es == table.View() && Sweeping(c, steps, p)
      ensures p < |ref| && p < |table.refcnt|
      ensures StopsAfter(c.es, c.bits, StartOf(c), steps) <==> !(ref[p] || table.refcnt[p] != 0)
    {
      hide DoubleOk, TableOk, RecordsOk, Distinct, StartOf;
      table.RecordsFacts();
    }

    lemma SweepStarts()
      requires Consistent() && table.lru != []
      ensures Sweeping(Now(), 0, if hand == NULL then table.lruHead else hand) && (hand == NULL ==> table.lruHead >= 0)
    {
      hide TableOk, RecordsOk, Unique;
      table.RecordsFacts();
      table.LruPointers(0);
      hide DoubleOk, Distinct;
      if hand == NULL { IndexNull(table.lru); }
    }

    /** replace_lru's sweep: it passes exactly the entries that the clock passes. */
    method Sweep(ghost v: nat) returns (p: nat)
      requires Consistent() && Unpinned(table.View(), v)
      modifies `ref
      ensures |ref| == old(|ref|) && |table.lru| == |old(Now()).es| == |old(Now()).bits| != 0
      ensures p == table.lru[Choice(old(Now()))] && Within(table.lru, |ref|)
      ensures Marks(table.lru, ref) == BitsAfter(old(Now()).bits, StartOf(old(Now())), Passes(old(Now())))
    {
      hide DoubleOk, TableOk, RecordsOk, Distinct, StartOf, Sweeping, SecondChance, StopsAfter, Entries, IndexOf, Marks;
      table.RecordsFacts();
      NowOk();
      ghost var c := Now();
      ghost var start := StartOf(c);
      assert c.es == table.View();
      ChoiceIs(c, v);
      SweepStarts();
      p := if hand == NULL then table.lruHead else hand;
      ghost var steps := 0;
      SweepAt(c, steps, p);
      while ref[p] || table.refcnt[p] != 0
        invariant Sweeping(c, steps, p) && |ref| == table.entries && p < |ref|
        invariant steps <= Passes(c) && Stop(c.es, c.bits, start, steps) == Passes(c)
        decreases Passes(c) - steps
      {
        SweepAt(c, steps, p);
        p := Pass(p, c, steps);
        steps := steps + 1;
        SweepAt(c, steps, p);
      }
      SweepAt(c, steps, p);
      assert steps == Passes(c);
      SweepIs(c, steps, p);
    }

    lemma SweepIs(c: Clock, steps: nat, p: nat)
      requires Sweeping(c, steps, p) && steps == Passes(c)
      ensures |table.lru| == |c.es| && Within(table.lru, |ref|) && p == table.lru[Choice(c)]
      ensures Marks(table.lru, ref) == BitsAfter(c.bits, StartOf(c), Passes(c))
    {}

    /** replace_lru. */
    method ReplaceLru(ghost v: nat) returns (victim: Entry)
      requires Consistent() && Unpinned(table.View(), v)
      modifies this, table
      ensures Consistent() && table.nEntries == old(table.nEntries) - 1
      ensures |old(Now()).bits| == |old(Now()).es| != 0
      ensures victim == old(Now()).es[Choice(old(Now()))] && Now() == Evicted(old(Now()))
      ensures SecondChance(old(Now()).es, old(Now()).bits, StartOf(old(Now())), Choice(old(Now())))
    {
      hide DoubleOk, TableOk, RecordsOk, SecondChance, Without, Distinct, Choice, Passes, StartOf, IndexOf, Marks, Entries;
      table.RecordsFacts();
      NowOk();
      ghost var c := Now();
      ChoiceIs(c, v);
      ghost var w := Choice(c);
      var p := Sweep(v);
      HandMoves(table.lru, w);
      IndexNext(table.lru, w);
      MarksWithout(table.lru, ref, w);
      table.LruPointers(w);
      hand := table.nextLru[p];
      ViewAt(w);
      victim := Entry(table.key[p], table.contents[p], table.refcnt[p]);
      WithoutAt(table.View(), w);
      table.InBucket(w);
      var b := table.bucket[p];
      var prev;
      ghost var j;
      prev, j := table.FindLink(p, b);
      table.Drop(p, prev, b, w, j);
      table.RecordsFacts();
    }

    lemma ViewAt(w: nat)
      requires table.Consistent() && w < |table.lru|
      ensures var p := table.lru[w];
              && p < |table.key| == |table.contents| == |table.refcnt| && w < |table.View()|
              && table.View()[w] == Entry(table.key[p], table.contents[p], table.refcnt[p])
    {
      hide DoubleOk, TableOk;
      table.RecordsFacts();
    }

    /** A new entry, pinned and not referenced, evicting one if it is too many. */
    method Add(k: nat, data: seq<byte>) returns (evicted: Option<Entry>)
      requires Valid() && Find(table.View(), k).None? && Admits()
      modifies this, table
      ensures Valid() && |old(Now()).bits| == |old(Now()).es|
      ensures Now() == Joined(old(Now()), Entry(k, data, 1), maxEntries)
      ensures evicted == Gone(old(Now()), Entry(k, data, 1), maxEntries)
    {
      hide DoubleOk, TableOk, RecordsOk, SecondChance, Without, Distinct, Find, Marks, Entries, Choice, Evicted, IndexOf;
      NowOk();
      ghost var c := Now();
      InsertPinned(k, data);
      evicted := None;
      if maxEntries > 0 && table.nEntries > maxEntries {
        ghost var v: nat :| Unpinned(c.es, v);
        assert Unpinned(table.View(), v + 1);
        var victim := ReplaceLru(v + 1);
        evicted := Some(victim);
      }
    }

    method InsertPinned(k: nat, data: seq<byte>)
      requires Consistent() && Find(table.View(), k).None?
      modifies `ref, table
      ensures Consistent() && table.nEntries == old(table.nEntries) + 1
      ensures Now() == Front(old(Now()), Entry(k, data, 1))
    {
      hide DoubleOk, TableOk, RecordsOk, Distinct, Find, Entries, Within, Marks, IndexOf;
      ghost var order0 := table.lru;
      table.RecordsFacts();
      NowOk();
      var n := table.Insert(k, data);
      table.RecordsFacts();
      FrontIn(n, order0, table.entries);
      IndexFront(order0, n, hand);
      ClearBit(n, order0);
      table.Assign(n, 0, data, 1);
      NowOk();
    }

    /** create_pme clears the new entry's bit; new memory holds no bit that matters. */
    method ClearBit(n: nat, ghost order0: seq<nat>)
      requires |ref| <= table.entries && n < table.entries && Within(order0, |ref|) && n !in order0
      requires Within([n] + order0, table.entries)
      modifies `ref
      ensures |ref| == table.entries && Marks([n] + order0, ref) == [false] + old(Marks(order0, ref))
    {
      ghost var ref0 := ref;
      ref := ref + seq(table.entries - |ref|, _ => false);
      ref := ref[n := false];
      MarksFront(order0, ref0, ref, n);
    }

    /** What a call that makes an entry may rely on: with the map full, some entry is not pinned, or the sweep
        would not end. */
    ghost predicate Admits()
      requires table.Consistent()
      reads this, table
    {
      maxEntries > 0 && table.nEntries >= maxEntries ==> exists v: nat :: Unpinned(table.View(), v)
    }

    method Create(k: nat, data: seq<byte>) returns (created: bool, evicted: Option<Entry>)
      requires Valid() && (Find(table.View(), k).None? ==> Admits())
      modifies this, table
      ensures Valid() && created == Find(old(Now()).es, k).None? && |old(Now()).bits| == |old(Now()).es|
      ensures Now() == if created then Joined(old(Now()), Entry(k, data, 1), maxEntries) else old(Now())
      ensures evicted == if created then Gone(old(Now()), Entry(k, data, 1), maxEntries) else None
    {
      hide DoubleOk, TableOk, RecordsOk, Find, Marks, Entries, Joined, Gone, IndexOf, Admits;
      NowOk();
      evicted := None;
      var n := table.FindPme(k);
      created := n == NULL;
      if created {
        evicted := Add(k, data);
      }
    }

    method Set(k: nat, data: seq<byte>) returns (was: Option<seq<byte>>, evicted: Option<Entry>)
      requires Valid() && (Find(table.View(), k).None? ==> Admits())
      modifies this, table
      ensures Valid() && |old(Now()).bits| == |old(Now()).es|
      ensures match Find(old(Now()).es, k)
              case None => was.None? && Now() == Joined(old(Now()), Entry(k, data, 1), maxEntries) &&
                           evicted == Gone(old(Now()), Entry(k, data, 1), maxEntries)
              case Some(i) => was == Some(old(Now()).es[i].contents) && evicted.None? &&
                              Now() == Struck(old(Now()), i, data, 0, maxEntries)
    {
      hide DoubleOk, TableOk, RecordsOk, Find, Marks, Joined, Gone, IndexOf, Admits;
      NowOk();
      table.RecordsFacts();
      evicted, was := None, None;
      var n := table.FindPme(k);
      if n != NULL {
        was := Some(table.contents[n]);
        Hit(n, Find(table.View(), k).value, data, 0);
      } else {
        evicted := Add(k, data);
      }
    }

    /** update_lru and the assignments beside it. */
    method Hit(n: nat, ghost i: nat, data: seq<byte>, pins: int)
      requires Valid() && i < |table.lru| && table.lru[i] == n
      modifies `ref, table`contents, table`refcnt
      ensures Valid() && i < |old(Now()).es| == |old(Now()).bits|
      ensures Now() == Struck(old(Now()), i, data, pins, maxEntries)
    {
      hide DoubleOk, TableOk, RecordsOk, Marks, IndexOf;
      NowOk();
      table.RecordsFacts();
      MarksSet(table.lru, ref, i);
      table.Assign(n, i, data, table.refcnt[n] + pins);
      if maxEntries != 0 {
        ref := ref[n := true];
      }
    }

    /** A hit also pins the entry; the code asserts that the count is below 10000. */
    method Get(k: nat) returns (r: Option<seq<byte>>)
      requires Valid()
      requires Find(table.View(), k).Some? ==> table.View()[Find(table.View(), k).value].refcnt < 10000
      modifies this, table
      ensures Valid() && |old(Now()).bits| == |old(Now()).es|
      ensures match Find(old(Now()).es, k)
              case None => r.None? && Now() == old(Now())
              case Some(i) => r == Some(old(Now()).es[i].contents) &&
                              Now() == Struck(old(Now()), i, old(Now()).es[i].contents, 1, maxEntries)
    {
      hide DoubleOk, TableOk, RecordsOk, Find, Marks, IndexOf;
      NowOk();
      table.RecordsFacts();
      r := None;
      var n := table.FindPme(k);
      if n != NULL {
        r := Some(table.contents[n]);
        Hit(n, Find(table.View(), k).value, table.contents[n], 1);
      }
    }

    method Update(k: nat, data: seq<byte>) returns (found: bool)
      requires Valid()
      modifies this, table
      ensures Valid() && |old(Now()).bits| == |old(Now()).es|
      ensures match Find(old(Now()).es, k)
              case None => !found && Now() == old(Now())
              case Some(i) => found && Now() == Struck(old(Now()), i, data, 0, maxEntries)
    {
      hide DoubleOk, TableOk, RecordsOk, Find, Marks, IndexOf;
      NowOk();
      table.RecordsFacts();
      var n := table.FindPme(k);
      found := n != NULL;
      if n != NULL {
        Hit(n, Find(table.View(), k).value, data, 0);
      }
    }

    /** CMapIncrRefcnt and CMapRelease: no reference bit. */
    method AddRef(k: nat, step: int) returns (found: bool)
      requires Valid()
      modifies table
      ensures Valid()
      ensures match Find(old(Now()).es, k)
              case None => !found && Now() == old(Now())
              case Some(i) => found && Now() == old(Now()).(es := old(Now()).es[i := Pinned(old(Now()).es[i], step)])
    {
      hide DoubleOk, TableOk, RecordsOk, Find, IndexOf, Marks;
      table.RecordsFacts();
      var n := table.FindPme(k);
      found := n != NULL;
      if n != NULL {
        table.Assign(n, Find(table.View(), k).value, table.contents[n], table.refcnt[n] + step);
      }
    }

    method Delete(k: nat) returns (found: bool)
      requires Valid()
      modifies this, table
      ensures Valid() && |old(Now()).bits| == |old(Now()).es| && old(Now()).hand <= |old(Now()).es|
      ensures match Find(old(Now()).es, k)
              case None => !found && Now() == old(Now())
              case Some(i) => found && Now() == Removed(old(Now()), i)
    {
      hide DoubleOk, TableOk, RecordsOk, Find, Entries, Without, Distinct, IndexOf, Marks;
      table.RecordsFacts();
      NowOk();
      var b := table.hash(k) % table.nbuckets;
      var prev, n;
      ghost var j;
      prev, n, j := table.FindKeyLink(k, b);
      table.FoundIs(n, b, k);
      found := n != NULL;
      if found {
        DeleteAt(n, prev, b, Find(table.View(), k).value, j);
      }
    }

    /** remove_lru moves the hand off the entry that goes. */
    method DeleteAt(n: nat, prev: int, b: nat, ghost i: nat, ghost j: nat)
      requires Valid() && i < |table.lru| && table.lru[i] == n
      requires b < table.nbuckets == |table.chains| && j < |table.chains[b]| && table.chains[b][j] == n
      requires prev == At(table.chains[b], j - 1)
      modifies this, table
      ensures Valid() && i < |old(Now()).bits| == |old(Now()).es| && old(Now()).hand <= |old(Now()).es|
      ensures Now() == Removed(old(Now()), i)
    {
      hide DoubleOk, TableOk, RecordsOk, Entries, Without, Distinct, IndexOf, Marks;
      table.RecordsFacts();
      NowOk();
      table.LruPointers(i);
      HandMoves(table.lru, i);
      OthersStay(table.lru, i);
      WithoutAt(table.View(), i);
      MarksWithout(table.lru, ref, i);
      if hand == n {
        IndexNext(table.lru, i);
        IndexAt(table.lru, i);
        hand := table.nextLru[n];
      } else {
        IndexWithout(table.lru, i, hand);
      }
      table.Drop(n, prev, b, i, j);
      table.RecordsFacts();
      NowOk();
    }

    /** Any operation: the map in memory follows the clock, and the answer is the plain map's. */
    method Perform(op: Op) returns (answer: Answer, evicted: Option<Entry>)
      requires Valid() && Allowed(Now(), op, maxEntries)
      modifies this, table
      ensures Valid() && ClockOk(old(Now())) && Now() == Tick(old(Now()), op, maxEntries)
      ensures answer == AnswerFor(AsMap(old(Now()).es), op) && evicted == GoneBy(old(Now()), op, maxEntries)
    {
      hide DoubleOk, TableOk, RecordsOk, Find, Joined, Gone, Struck, Removed, Marks, IndexOf, Unique, Entries, AsMap;
      evicted := None;
      NowOk();
      AsMapIs(Now().es, op.k);
      match op {
        case Create(k, data) =>
          var created;
          created, evicted := Create(k, data);
          answer := Flag(created);
        case Set(k, data) =>
          var was;
          was, evicted := Set(k, data);
          answer := Value(was);
        case Get(k) =>
          var r := Get(k);
          answer := Value(r);
        case Update(k, data) =>
          var found := Update(k, data);
          answer := Flag(found);
        case Delete(k) =>
          var found := Delete(k);
          answer := Flag(found);
        case AddRef(k, step) =>
          var found := AddRef(k, step);
          answer := Flag(found);
      }
    }
  }

  lemma IndexNull(s: seq<nat>)
    ensures IndexOf(s, NULL) == |s|
  {
    hide IndexOf;
    var i := IndexOf(s, NULL);
  }

  lemma IndexAt(s: seq<nat>, i: nat)
    requires Distinct(s) && i < |s|
    ensures IndexOf(s, s[i]) == i
  {
    hide IndexOf;
    IndexOfIs(s, s[i], i);
  }

  // ------------------------------------------------------------------------- runs

  /** Every operation of the run is one that the map allows when it comes. */
  ghost predicate Playable(c: Clock, ops: seq<Op>, maxEntries: nat)
    decreases ops
  {
    ClockOk(c) &&
    (ops == [] || (Allowed(c, ops[0], maxEntries) && Playable(Tick(c, ops[0], maxEntries), ops[1..], maxEntries)))
  }

  /** One operation of a run: the clock follows, the entries are a plain map that the operation changes as it
      should, the answer is that map's, the victim is handed over, and a limit is kept. */
  ghost predicate Ticked(c: Clock, op: Op, out: Outcome, c': Clock, maxEntries: nat) {
    && !op.Clear? && ClockOk(c) && Allowed(c, op, maxEntries) && c' == Tick(c, op, maxEntries)
    && Moves(c, c', op, maxEntries)
    && MapTick(AsMap(c.es), AsMap(c'.es), c, op, maxEntries, out.evicted)
    && out.answer == AnswerFor(AsMap(c.es), op)
    && (maxEntries > 0 && |c.es| <= maxEntries ==> |c'.es| <= maxEntries)
  }

  lemma NotClear(c: Clock, op: Op, maxEntries: nat)
    requires Allowed(c, op, maxEntries)
    ensures !op.Clear?
  {}

  method TickOnce(m: CMap, op: Op, ghost rest: seq<Op>) returns (out: Outcome)
    requires m.Valid() && Playable(m.Now(), [op] + rest, m.maxEntries)
    modifies m, m.table
    ensures m.Valid() && Playable(m.Now(), rest, m.maxEntries)
    ensures Ticked(old(m.Now()), op, out, m.Now(), m.maxEntries)
  {
    hide Find, Allowed, Tick, ClockOk, AsMap, MapTick, Moves, GoneBy, CMap.Consistent, CMap.Now;
    assert ([op] + rest)[0] == op && ([op] + rest)[1..] == rest;
    TickMap(m.Now(), op, m.maxEntries);
    assert !op.Clear? by { NotClear(m.Now(), op, m.maxEntries); }
    TickMoves(m.Now(), op, m.maxEntries);
    var answer, evicted := m.Perform(op);
    out := Outcome(answer, evicted);
  }

  /** Any run of operations on an empty map. */
  method RunClock(m: CMap, ops: seq<Op>) returns (outs: seq<Outcome>, ghost clocks: seq<Clock>)
    requires m.Valid() && m.Now() == Clock([], [], 0) && Playable(m.Now(), ops, m.maxEntries)
    modifies m, m.table
    ensures m.Valid() && |clocks| == |ops| + 1 && |outs| == |ops|
    ensures clocks[0] == Clock([], [], 0) && m.Now() == clocks[|ops|]
    ensures forall i | 0 <= i < |ops| :: Ticked(clocks[i], ops[i], outs[i], clocks[i + 1], m.maxEntries)
    ensures m.maxEntries > 0 ==> forall i | 0 <= i <= |ops| :: |clocks[i].es| <= m.maxEntries
  {
    hide Ticked, Playable, CMap.Consistent, CMap.Now;
    outs, clocks := [], [m.Now()];
    assert ops[0..] == ops;
    for n := 0 to |ops|
      invariant m.Valid() && |clocks| == n + 1 && |outs| == n && clocks[0] == Clock([], [], 0) && m.Now() == clocks[n]
      invariant Playable(m.Now(), ops[n..], m.maxEntries)
      invariant forall i | 0 <= i < n :: Ticked(clocks[i], ops[i], outs[i], clocks[i + 1], m.maxEntries)
    {
      assert ops[n..] == [ops[n]] + ops[n + 1..];
      var out := TickOnce(m, ops[n], ops[n + 1..]);
      outs, clocks := outs + [out], clocks + [m.Now()];
    }
    if m.maxEntries > 0 {
      forall i | 0 <= i <= |ops| ensures |clocks[i].es| <= m.maxEntries { LimitKept(clocks, ops, outs, m.maxEntries, i); }
    }
  }

  lemma {:induction false} LimitKept(clocks: seq<Clock>, ops: seq<Op>, outs: seq<Outcome>, maxEntries: nat, i: nat)
    requires |clocks| == |ops| + 1 && |outs| == |ops| && clocks[0].es == [] && maxEntries > 0 && i <= |ops|
    requires forall j | 0 <= j < |ops| :: Ticked(clocks[j], ops[j], outs[j], clocks[j + 1], maxEntries)
    ensures |clocks[i].es| <= maxEntries
  {
    hide Allowed, Tick, MapTick, Moves, ClockOk, AsMap;
    if i > 0 {
      LimitKept(clocks, ops, outs, maxEntries, i - 1);
      assert Ticked(clocks[i - 1], ops[i - 1], outs[i - 1], clocks[i], maxEntries);
    }
  }
}
