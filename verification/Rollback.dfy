/** What a rollback leaves when any trx may be reverted, also one that issued TRIMs.

    Records below a trim position may have been reclaimed before the TRIM is taken back, so
    the history that is left need not be the old history without the reverted trx.  Reads of
    settled keys are what they would be in that history. */
module Rollback {
  import opened Keys
  import opened LogSpec
  import opened Flash
  import opened Container
  import opened ContainerProofs
  import opened Recovery
  import opened Limits

  /** A PG's records after the rollback: some of those below the trim position are gone. */
  ghost predicate RolledPg(all: Log, reverted: set<nat>, left: Log) {
    exists live :: Kept(all, live) && left == Without(live, reverted)
  }

  ghost predicate RolledBack(history: Log, reverted: set<nat>, left: Log) {
    LogOk(left) && forall p: Pg :: RolledPg(OfPg(history, p), reverted, OfPg(left, p))
  }

  /** Erasing the reverted trx from the whole history is one way to roll back. */
  lemma WithoutRolled(history: Log, reverted: set<nat>)
    requires LogOk(history)
    ensures RolledBack(history, reverted, Without(history, reverted))
  {
    hide OfPg, Without;
    var left := Without(history, reverted);
    WithoutSubset(history, reverted);
    forall i | 0 <= i < |left| ensures RecordOk(left[i]) { assert left[i] in history; }
    forall p: Pg ensures RolledPg(OfPg(history, p), reverted, OfPg(left, p)) {
      OfPgWithout(history, reverted, p);
      KeptItself(OfPg(history, p));
    }
  }

  /** After any rollback, a settled key reads as in the history without the reverted trx. */
  lemma RolledReads(history: Log, reverted: set<nat>, left: Log, k: Key)
    requires LogOk(history) && RolledBack(history, reverted, left)
    requires WellFormed(k) && CounterOf(k) != UNKNOWN
    requires Settled(TrimFor(history, k), OfPg(left, PgOf(k)), k)
    ensures Lookup(Replay(left), k) == Lookup(Replay(Without(history, reverted)), k)
  {
    hide OfPg, Replay, Lookup, TrimOf, Canon, FateOf, Below;
    var p := PgOf(k);
    var all := OfPg(history, p);
    assert RolledPg(all, reverted, OfPg(left, p));
    var live :| Kept(all, live) && OfPg(left, p) == Without(live, reverted);
    var d := all[..|all| - |live|];
    assert all == d + live;
    KeptTrim(all, live);
    OfPgIdempotent(history, p);
    PartOfPg(d, live, p);
    OfPgDecoded(history, p);
    assert forall i | 0 <= i < |d| :: d[i] == all[i];
    assert Below(d, live, p) by {
      forall i | 0 <= i < |d| ensures Droppable(d[i], TrimOf(live)) { assert d[i] == all[i]; }
      BelowIs(d, live, p);
    }
    RevertSafe(d, live, reverted, k);
    LookupOfPg(left, k);
    WithoutDecoded(history, reverted);
    LookupOfPg(Without(history, reverted), k);
    OfPgWithout(history, reverted, p);
  }

  lemma BelowIs(d: Log, live: Log, p: Pg)
    requires OfPg(d, p) == d && OfPg(live, p) == live
    requires forall i | 0 <= i < |d| :: Droppable(d[i], TrimOf(live))
    ensures Below(d, live, p)
  {}

  /** Both parts of a PG's log hold records of the PG only. */
  lemma PartOfPg(a: Log, b: Log, p: Pg)
    requires OfPg(a + b, p) == a + b
    ensures OfPg(a, p) == a && OfPg(b, p) == b
  {
    OfPgConcat(a, b, p);
    OfPgShorter(a, p);
    OfPgShorter(b, p);
    var x, y := OfPg(a, p), OfPg(b, p);
    assert x == (x + y)[..|x|] == (a + b)[..|a|] == a;
    assert y == (x + y)[|x|..] == (a + b)[|a|..] == b;
  }

  lemma {:induction false} OfPgShorter(log: Log, p: Pg)
    ensures |OfPg(log, p)| <= |log|
  {
    if log != [] { OfPgShorter(log[..|log| - 1], p); }
  }

  lemma WithoutDecoded(log: Log, reverted: set<nat>)
    requires LogDecoded(log)
    ensures LogDecoded(Without(log, reverted))
  {
    WithoutSubset(log, reverted);
    var l := Without(log, reverted);
    forall i | 0 <= i < |l| ensures Decoded(l[i]) { assert l[i] in log; }
  }

  // --------------------------------------------------------- what is left on flash

  /** The logs of all streams below `n`, one after the other. */
  ghost function Gathered(flash: Objects, n: nat): Log {
    if n == 0 then [] else Gathered(flash, n - 1) + LogOf(flash, n - 1)
  }

  /** A bound on all stream numbers in use. */
  ghost function StreamTop(ids: set<SoId>): (n: nat)
    ensures forall id | id in ids :: id.stream < n
  {
    if ids == {} then 0
    else
      var id :| id in ids;
      var m := StreamTop(ids - {id});
      if id.stream < m then m else id.stream + 1
  }

  lemma {:induction false} GatheredPg(flash: Objects, home: map<Pg, nat>, n: nat, p: Pg)
    requires OneHome(flash, home) && ObjectsOk(flash)
    ensures OfPg(Gathered(flash, n), p) == if p in home && home[p] < n then PgLog(flash, home, p) else []
    ensures LogOk(Gathered(flash, n))
  {
    hide OneHome, OfPg, LogOf, ObjectsOk;
    if n == 0 {
      NoneOfPg(p);
    } else {
      GatheredPg(flash, home, n - 1, p);
      OfPgConcat(Gathered(flash, n - 1), LogOf(flash, n - 1), p);
      HomeOnly(flash, home, n - 1, p);
      LogOfOk(flash, n - 1);
    }
  }

  lemma HomeOnly(flash: Objects, home: map<Pg, nat>, s: nat, p: Pg)
    requires OneHome(flash, home)
    ensures !(p in home && home[p] == s) ==> OfPg(LogOf(flash, s), p) == []
  {
    assert HomeAt(flash, home, s, p);
  }

  lemma NoLog(flash: Objects, s: nat)
    requires forall id | id in flash :: id.stream != s
    ensures LogOf(flash, s) == []
  {
    LogOfIs(flash, s, 0);
  }

  /** Flash stands for the records that are on it. */
  lemma GatheredRepresents(flash: Objects, home: map<Pg, nat>)
    requires OneHome(flash, home) && ObjectsOk(flash)
    ensures Represents(flash, home, Gathered(flash, StreamTop(flash.Keys)))
    ensures forall p: Pg :: OfPg(Gathered(flash, StreamTop(flash.Keys)), p) == PgLog(flash, home, p)
  {
    hide OneHome, OfPg, LogOf;
    var n := StreamTop(flash.Keys);
    var log := Gathered(flash, n);
    GatheredPg(flash, home, n, []);
    forall p: Pg ensures OfPg(log, p) == PgLog(flash, home, p) {
      GatheredPg(flash, home, n, p);
      if p in home && n <= home[p] {
        NoLog(flash, home[p]);
        NoneOfPg(p);
      }
    }
    forall p: Pg ensures Kept(OfPg(log, p), PgLog(flash, home, p)) { KeptItself(PgLog(flash, home, p)); }
  }

  /** The history that recovery leaves: exactly the old one without the reverted trx if those
      issued no TRIM, and otherwise what is on flash. */
  ghost function Left(flash: Objects, history: Log, reverted: set<nat>): Log {
    if NoTrimReverted(history, reverted) then Without(history, reverted)
    else Gathered(TombAll(flash, reverted), StreamTop(TombAll(flash, reverted).Keys))
  }

  lemma LeftRepresents(flash: Objects, home: map<Pg, nat>, history: Log, reverted: set<nat>)
    requires Represents(flash, home, history)
    ensures Represents(TombAll(flash, reverted), home, Left(flash, history, reverted))
    ensures RolledBack(history, reverted, Left(flash, history, reverted))
  {
    hide OneHome, OfPg, LogOf, TombAll, Kept, Gathered, Without;
    if NoTrimReverted(history, reverted) {
      RepresentsTomb(flash, home, history, reverted);
      WithoutRolled(history, reverted);
    } else {
      var g := TombAll(flash, reverted);
      var left := Left(flash, history, reverted);
      TombOneHome(flash, home, reverted);
      assert ObjectsOk(g) by { TombOk(flash, reverted); }
      GatheredRepresents(g, home);
      forall p: Pg ensures RolledPg(OfPg(history, p), reverted, OfPg(left, p)) {
        var live := PgLog(flash, home, p);
        assert Kept(OfPg(history, p), live);
        TombPgLog(flash, home, reverted, p);
      }
    }
  }

  lemma TombOk(flash: Objects, reverted: set<nat>)
    requires ObjectsOk(flash)
    ensures ObjectsOk(TombAll(flash, reverted))
  {}
}
