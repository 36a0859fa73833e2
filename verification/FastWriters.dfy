/** Fast writers that overlap: lc_write copies its record to the stream buffer under buflock but
    appends it to NVRAM after releasing that lock, so two writers at once may go in one order to
    the buffer, which reads look at, and in the other to NVRAM, which recovery looks at. */
module FastWriters {
  import opened Keys
  import opened LogSpec

  datatype Phase = Waiting | Copied | Appended

  /** The writers in the order of the buffer and in the order of NVRAM. */
  datatype State = State(buf: seq<nat>, nv: seq<nat>, phase: seq<Phase>)

  function Start(n: nat): State { State([], [], seq(n, _ => Waiting)) }

  /** The next step of writer w, if it has one. */
  function Step(s: State, w: nat): (s': State)
    ensures |s'.phase| == |s.phase|
  {
    if w >= |s.phase| then s
    else
      match s.phase[w]
      case Waiting => State(s.buf + [w], s.nv, s.phase[w := Copied])
      case Copied => State(s.buf, s.nv + [w], s.phase[w := Appended])
      case Appended => s
  }

  /** The writers scheduled in any order. */
  function Exec(n: nat, who: seq<nat>): (s: State)
    ensures |s.phase| == n
  {
    if who == [] then Start(n) else Step(Exec(n, who[..|who| - 1]), who[|who| - 1])
  }

  ghost predicate Complete(s: State) { forall w | 0 <= w < |s.phase| :: s.phase[w].Appended? }

  ghost predicate Inv(s: State) {
    && (forall i | 0 <= i < |s.buf| :: s.buf[i] < |s.phase|) && (forall i | 0 <= i < |s.nv| :: s.nv[i] < |s.phase|)
    && (forall w: nat | w < |s.phase| :: w in s.buf <==> !s.phase[w].Waiting?)
    && (forall w: nat | w < |s.phase| :: w in s.nv <==> s.phase[w].Appended?)
    && (forall i, j | 0 <= i < j < |s.buf| :: s.buf[i] != s.buf[j])
    && (forall i, j | 0 <= i < j < |s.nv| :: s.nv[i] != s.nv[j])
  }

  lemma StepInv(s: State, w: nat)
    requires Inv(s)
    ensures Inv(Step(s, w)) && s.buf <= Step(s, w).buf && s.nv <= Step(s, w).nv
  {
    assert forall i | 0 <= i < |s.buf| :: s.buf[i] in s.buf;
    assert forall i | 0 <= i < |s.nv| :: s.nv[i] in s.nv;
  }

  lemma {:induction false} ExecInv(n: nat, who: seq<nat>)
    ensures Inv(Exec(n, who))
  {
    if who != [] {
      ExecInv(n, who[..|who| - 1]);
      StepInv(Exec(n, who[..|who| - 1]), who[|who| - 1]);
    }
  }

  /** Nothing in either order is ever taken back. */
  lemma {:induction false} ExecGrows(n: nat, who: seq<nat>, t: nat)
    requires t <= |who|
    ensures Exec(n, who[..t]).buf <= Exec(n, who).buf && Exec(n, who[..t]).nv <= Exec(n, who).nv
  {
    if t == |who| {
      assert who[..t] == who;
    } else {
      var most := who[..|who| - 1];
      assert most[..t] == who[..t];
      ExecGrows(n, most, t);
      ExecInv(n, most);
      StepInv(Exec(n, most), who[|who| - 1]);
    }
  }

  // --------------------------------------------------------------------- reading

  ghost predicate Writes(recs: Log) { forall i | 0 <= i < |recs| :: recs[i].kind.Write? && Decoded(recs[i]) }

  ghost predicate Below(ids: seq<nat>, n: nat) { forall i | 0 <= i < |ids| :: ids[i] < n }

  /** The records in the given order. */
  function Taken(recs: Log, ids: seq<nat>): Log
    requires Below(ids, |recs|)
  {
    seq(|ids|, i requires 0 <= i < |ids| => recs[ids[i]])
  }

  /** Length of the shortest prefix that holds every writer of the canonical key; 0 if there is none. */
  function LastOn(recs: Log, ids: seq<nat>, ck: Key): (m: nat)
    requires Below(ids, |recs|)
    ensures m <= |ids| && (m > 0 ==> Canon(recs[ids[m - 1]].key) == ck)
    ensures forall i | m <= i < |ids| :: Canon(recs[ids[i]].key) != ck
  {
    if ids == [] || Canon(recs[ids[|ids| - 1]].key) == ck then |ids| else LastOn(recs, ids[..|ids| - 1], ck)
  }

  lemma TakenSnoc(log: Log, recs: Log, ids: seq<nat>)
    requires Below(ids, |recs|) && ids != []
    ensures Below(ids[..|ids| - 1], |recs|)
    ensures log + Taken(recs, ids) == (log + Taken(recs, ids[..|ids| - 1])) + [recs[ids[|ids| - 1]]]
  {}

  /** The records trim nothing. */
  lemma {:induction false} TakenTrims(log: Log, recs: Log, ids: seq<nat>, p: Pg)
    requires Writes(recs) && Below(ids, |recs|)
    ensures TrimAt(Replay(log + Taken(recs, ids)), p) == TrimAt(Replay(log), p)
  {
    if ids == [] {
      assert log + Taken(recs, ids) == log;
    } else {
      var l := ids[..|ids| - 1];
      TakenSnoc(log, recs, ids);
      TakenTrims(log, recs, l, p);
      hide Replay, Taken;
      ReplaySnoc(log + Taken(recs, l), recs[ids[|ids| - 1]]);
    }
  }

  /** The store holds the record of the last writer of a key, or what the log before held. */
  ghost predicate Holds(st: Store, before: Store, recs: Log, ids: seq<nat>, ck: Key)
    requires Below(ids, |recs|)
  {
    var m := LastOn(recs, ids, ck);
    if m == 0 then AgreeAt(st, before, ck) else ck in st.kv && st.kv[ck] == recs[ids[m - 1]].data
  }

  lemma {:induction false} TakenHolds(log: Log, recs: Log, ids: seq<nat>, ck: Key)
    requires Writes(recs) && Below(ids, |recs|)
    ensures Holds(Replay(log + Taken(recs, ids)), Replay(log), recs, ids, ck)
  {
    if ids == [] {
      assert log + Taken(recs, ids) == log;
    } else {
      var l, r := ids[..|ids| - 1], recs[ids[|ids| - 1]];
      TakenSnoc(log, recs, ids);
      TakenHolds(log, recs, l, ck);
      hide Replay, Taken, Canon;
      ReplaySnoc(log + Taken(recs, l), r);
      assert r.kind.Write?;
    }
  }

  /** The last writer of a key, in the buffer and in NVRAM. */
  ghost predicate SameLast(recs: Log, s: State, ck: Key)
    requires Below(s.buf, |recs|) && Below(s.nv, |recs|)
  {
    var a, b := LastOn(recs, s.buf, ck), LastOn(recs, s.nv, ck);
    if a == 0 || b == 0 then a == b else recs[s.buf[a - 1]].data == recs[s.nv[b - 1]].data
  }

  /** A read from the buffer and a read after recovery from NVRAM agree. */
  ghost predicate ReadsAgree(log: Log, recs: Log, s: State, k: Key)
    requires WellFormed(k) && Below(s.buf, |recs|) && Below(s.nv, |recs|)
  {
    Lookup(Replay(log + Taken(recs, s.buf)), k) == Lookup(Replay(log + Taken(recs, s.nv)), k)
  }

  /** Two stores agree on a key exactly when its last writers wrote the same data. */
  lemma HeldAlike(st: Store, st': Store, before: Store, recs: Log, s: State, ck: Key)
    requires Below(s.buf, |recs|) && Below(s.nv, |recs|)
    requires Holds(st, before, recs, s.buf, ck) && Holds(st', before, recs, s.nv, ck)
    requires LastOn(recs, s.buf, ck) == 0 <==> LastOn(recs, s.nv, ck) == 0
    ensures AgreeAt(st, st', ck) <==> SameLast(recs, s, ck)
  {
    hide LastOn, Canon;
  }

  lemma ReadAlike(st: Store, st': Store, k: Key, trim: nat)
    requires WellFormed(k) && TrimAt(st, PgOf(k)) == TrimAt(st', PgOf(k)) == trim
    ensures Lookup(st, k) == Lookup(st', k) <==> AgreeAt(st, st', Canon(k)) || Trimmed(trim, CounterOf(k))
  {
    hide Canon, WellFormed, PgOf, CounterOf, TrimAt;
  }

  lemma AgreeIsSameLast(log: Log, recs: Log, s: State, k: Key)
    requires Writes(recs) && WellFormed(k) && Below(s.buf, |recs|) && Below(s.nv, |recs|)
    requires LastOn(recs, s.buf, Canon(k)) == 0 <==> LastOn(recs, s.nv, Canon(k)) == 0
    ensures ReadsAgree(log, recs, s, k) <==>
            SameLast(recs, s, Canon(k)) || Trimmed(TrimAt(Replay(log), PgOf(k)), CounterOf(k))
  {
    hide Canon, Replay, LastOn, Taken, Writes, WellFormed, PgOf, CounterOf, Below, Holds, SameLast, AgreeAt, Lookup, TrimAt;
    var ck, st, st' := Canon(k), Replay(log + Taken(recs, s.buf)), Replay(log + Taken(recs, s.nv));
    TakenHolds(log, recs, s.buf, ck);
    TakenHolds(log, recs, s.nv, ck);
    HeldAlike(st, st', Replay(log), recs, s, ck);
    TakenTrims(log, recs, s.buf, PgOf(k));
    TakenTrims(log, recs, s.nv, PgOf(k));
    ReadAlike(st, st', k, TrimAt(Replay(log), PgOf(k)));
  }

  lemma CompleteBelow(n: nat, who: seq<nat>, recs: Log, ck: Key)
    requires |recs| == n
    ensures var s := Exec(n, who);
            && Below(s.buf, n) && Below(s.nv, n)
            && (Complete(s) ==> (LastOn(recs, s.buf, ck) == 0 <==> LastOn(recs, s.nv, ck) == 0))
  {
    hide Canon, LastOn, Exec;
    ExecInv(n, who);
    var s := Exec(n, who);
    if Complete(s) {
      var a, b := LastOn(recs, s.buf, ck), LastOn(recs, s.nv, ck);
      if a > 0 {
        assert s.buf[a - 1] in s.nv;
      }
      if b > 0 {
        assert s.nv[b - 1] in s.buf;
      }
    }
  }

  // ------------------------------------------------------- writers that do not overlap

  /** At some moment one of the two is through and the other has not begun. */
  ghost predicate Apart(n: nat, who: seq<nat>, a: nat, b: nat)
    requires a < n && b < n
  {
    exists t: nat | t <= |who| :: Done(Exec(n, who[..t]), a, b) || Done(Exec(n, who[..t]), b, a)
  }

  ghost predicate Done(s: State, a: nat, b: nat)
    requires a < |s.phase| && b < |s.phase|
  {
    s.phase[a].Appended? && s.phase[b].Waiting?
  }

  /** Then the one that is through comes first in both orders, and is not the last on a key of both. */
  lemma NotLast(n: nat, who: seq<nat>, t: nat, a: nat, b: nat, recs: Log, ck: Key)
    requires |recs| == n && a < n && b < n && t <= |who| && Done(Exec(n, who[..t]), a, b) && Complete(Exec(n, who))
    requires Canon(recs[a].key) == Canon(recs[b].key) == ck
    requires Below(Exec(n, who).buf, n) && Below(Exec(n, who).nv, n)
    ensures var s := Exec(n, who);
            && (LastOn(recs, s.buf, ck) > 0 ==> s.buf[LastOn(recs, s.buf, ck) - 1] != a)
            && (LastOn(recs, s.nv, ck) > 0 ==> s.nv[LastOn(recs, s.nv, ck) - 1] != a)
  {
    hide Exec, Canon, LastOn;
    ExecInv(n, who[..t]);
    ExecInv(n, who);
    ExecGrows(n, who, t);
    var s0, s := Exec(n, who[..t]), Exec(n, who);
    assert s.phase[b].Appended?;
    EarlierNotLast(s0.buf, s.buf, a, b, recs, ck);
    EarlierNotLast(s0.nv, s.nv, a, b, recs, ck);
  }

  lemma EarlierNotLast(ids0: seq<nat>, ids: seq<nat>, a: nat, b: nat, recs: Log, ck: Key)
    requires ids0 <= ids && a in ids0 && b !in ids0 && b in ids && Below(ids, |recs|) && b < |recs|
    requires Canon(recs[b].key) == ck && forall i, j | 0 <= i < j < |ids| :: ids[i] != ids[j]
    ensures LastOn(recs, ids, ck) > 0 ==> ids[LastOn(recs, ids, ck) - 1] != a
  {
    hide Canon, LastOn;
    var i :| 0 <= i < |ids0| && ids0[i] == a;
    var j :| 0 <= j < |ids| && ids[j] == b;
    assert ids[i] == a;
    assert forall m | 0 <= m < |ids0| :: ids[m] == ids0[m] && ids0[m] in ids0;
    assert j >= |ids0|;
  }

  /** Reads agree on every key whose writers do not overlap, or write the same data. */
  lemma ApartAgree(log: Log, recs: Log, who: seq<nat>, k: Key)
    requires Writes(recs) && WellFormed(k) && Complete(Exec(|recs|, who))
    requires forall a: nat, b: nat | a < |recs| && b < |recs| && a != b && OnKey(recs[a], k) && OnKey(recs[b], k) ::
               recs[a].data == recs[b].data || Apart(|recs|, who, a, b)
    ensures Below(Exec(|recs|, who).buf, |recs|) && Below(Exec(|recs|, who).nv, |recs|)
    ensures ReadsAgree(log, recs, Exec(|recs|, who), k)
  {
    hide Exec, Canon, LastOn, Complete, ReadsAgree, Writes;
    var n, s, ck := |recs|, Exec(|recs|, who), Canon(k);
    CompleteBelow(n, who, recs, ck);
    AgreeIsSameLast(log, recs, s, k);
    var x, y := LastOn(recs, s.buf, ck), LastOn(recs, s.nv, ck);
    if x > 0 {
      var a, b := s.buf[x - 1], s.nv[y - 1];
      assert OnKey(recs[a], k) && OnKey(recs[b], k);
      if recs[a].data != recs[b].data {
        assert Apart(n, who, a, b);
        var t: nat :| t <= |who| && (Done(Exec(n, who[..t]), a, b) || Done(Exec(n, who[..t]), b, a));
        if Done(Exec(n, who[..t]), a, b) {
          NotLast(n, who, t, a, b, recs, ck);
        } else {
          NotLast(n, who, t, b, a, recs, ck);
        }
      }
    }
  }

  ghost predicate OnKey(r: Record, k: Key) { Canon(r.key) == Canon(k) }

  // ---------------------------------------------------------- the exact condition

  /** All writers but two, in turn. */
  function Others(n: nat, i: nat, j: nat): (ids: seq<nat>)
    ensures forall w: nat :: w in ids <==> w < n && w != i && w != j
  {
    if n == 0 then []
    else
      var ids := Others(n - 1, i, j);
      if n - 1 == i || n - 1 == j then ids else ids + [n - 1]
  }

  lemma {:induction false} OthersOnce(n: nat, i: nat, j: nat)
    ensures forall x, y | 0 <= x < y < |Others(n, i, j)| :: Others(n, i, j)[x] != Others(n, i, j)[y]
  {
    if n > 0 {
      OthersOnce(n - 1, i, j);
      var ids := Others(n - 1, i, j);
      assert forall x | 0 <= x < |ids| :: ids[x] in ids;
    }
  }

  function Twice(ids: seq<nat>): seq<nat> {
    if ids == [] then [] else Twice(ids[..|ids| - 1]) + [ids[|ids| - 1], ids[|ids| - 1]]
  }

  lemma ExecSnoc(n: nat, who: seq<nat>, w: nat)
    ensures Exec(n, who + [w]) == Step(Exec(n, who), w)
  {
    assert (who + [w])[..|who|] == who;
  }

  /** Writers one after the other leave both orders the same. */
  lemma {:induction false} ExecTwice(n: nat, ids: seq<nat>)
    requires Below(ids, n) && forall x, y | 0 <= x < y < |ids| :: ids[x] != ids[y]
    ensures var s := Exec(n, Twice(ids));
            && s.buf == ids && s.nv == ids
            && forall w: nat | w < n :: s.phase[w] == if w in ids then Appended else Waiting
  {
    hide Exec;
    if ids == [] {
      assert Exec(n, []) == Start(n) by { ExecNone(n); }
    } else {
      var l, w := ids[..|ids| - 1], ids[|ids| - 1];
      ExecTwice(n, l);
      assert ids == l + [w] && w !in l;
      assert Twice(ids) == Twice(l) + [w] + [w];
      ExecSnoc(n, Twice(l), w);
      ExecSnoc(n, Twice(l) + [w], w);
    }
  }

  lemma ExecNone(n: nat)
    ensures Exec(n, []) == Start(n)
  {}

  /** The schedule in which the last two writers cross. */
  function Crossed(n: nat, i: nat, j: nat): seq<nat> { Twice(Others(n, i, j)) + [i] + [j] + [j] + [i] }

  lemma CrossedIs(n: nat, i: nat, j: nat)
    requires i < n && j < n && i != j
    ensures var s, ids := Exec(n, Crossed(n, i, j)), Others(n, i, j);
            s.buf == ids + [i, j] && s.nv == ids + [j, i] && Complete(s)
  {
    hide Exec, Twice, Others;
    var ids := Others(n, i, j);
    var who := Twice(ids);
    assert Below(ids, n) by { assert forall x | 0 <= x < |ids| :: ids[x] in ids; }
    OthersOnce(n, i, j);
    ExecTwice(n, ids);
    ExecSnoc(n, who, i);
    ExecSnoc(n, who + [i], j);
    ExecSnoc(n, who + [i] + [j], j);
    ExecSnoc(n, who + [i] + [j] + [j], i);
    assert ids + [i] + [j] == ids + [i, j] && ids + [j] + [i] == ids + [j, i];
  }

  /** Two writers of one key with different data, and no TRIM that hides the key. */
  ghost predicate Conflict(log: Log, recs: Log, i: nat, j: nat) {
    && i < |recs| && j < |recs| && recs[i].data != recs[j].data && Canon(recs[i].key) == Canon(recs[j].key)
    && WellFormed(recs[i].key) && !Trimmed(TrimAt(Replay(log), PgOf(recs[i].key)), CounterOf(recs[i].key))
  }

  lemma CrossedDisagree(log: Log, recs: Log, i: nat, j: nat)
    requires Writes(recs) && Conflict(log, recs, i, j)
    ensures Below(Exec(|recs|, Crossed(|recs|, i, j)).buf, |recs|) && Below(Exec(|recs|, Crossed(|recs|, i, j)).nv, |recs|)
    ensures Complete(Exec(|recs|, Crossed(|recs|, i, j)))
    ensures !ReadsAgree(log, recs, Exec(|recs|, Crossed(|recs|, i, j)), recs[i].key)
  {
    hide Exec, Crossed, Others, Canon, ReadsAgree, Replay, Complete;
    var n, who, ck := |recs|, Crossed(|recs|, i, j), Canon(recs[i].key);
    CrossedIs(n, i, j);
    CompleteBelow(n, who, recs, ck);
    AgreeIsSameLast(log, recs, Exec(n, who), recs[i].key);
  }

  /** What a schedule leaves to read. */
  ghost predicate Consistent(log: Log, recs: Log, who: seq<nat>, k: Key)
    requires WellFormed(k)
  {
    var s := Exec(|recs|, who);
    Below(s.buf, |recs|) && Below(s.nv, |recs|) && ReadsAgree(log, recs, s, k)
  }

  /** Every schedule of the writers leaves buffer and NVRAM reading alike if and only if no two of
      them write different data under one key that is not trimmed. */
  lemma OrderIrrelevantIff(log: Log, recs: Log)
    requires Writes(recs)
    ensures (forall who: seq<nat>, k: Key | Complete(Exec(|recs|, who)) && WellFormed(k) :: Consistent(log, recs, who, k))
            <==> (forall i: nat, j: nat :: !Conflict(log, recs, i, j))
  {
    hide Exec, Canon, ReadsAgree, Complete, Replay;
    if i: nat, j: nat :| Conflict(log, recs, i, j) {
      CrossedDisagree(log, recs, i, j);
      assert !Consistent(log, recs, Crossed(|recs|, i, j), recs[i].key);
    } else {
      forall who: seq<nat>, k: Key | Complete(Exec(|recs|, who)) && WellFormed(k) ensures Consistent(log, recs, who, k) {
        NoConflictAgree(log, recs, who, k);
      }
    }
  }

  lemma NoConflictAgree(log: Log, recs: Log, who: seq<nat>, k: Key)
    requires Writes(recs) && WellFormed(k) && Complete(Exec(|recs|, who))
    requires forall i: nat, j: nat :: !Conflict(log, recs, i, j)
    ensures Consistent(log, recs, who, k)
  {
    hide Exec, Canon, ReadsAgree, Complete, Replay, LastOn, WellFormed, PgOf, CounterOf, TrimAt;
    var n, s, ck := |recs|, Exec(|recs|, who), Canon(k);
    CompleteBelow(n, who, recs, ck);
    AgreeIsSameLast(log, recs, s, k);
    var x, y := LastOn(recs, s.buf, ck), LastOn(recs, s.nv, ck);
    if x > 0 {
      var a, b := s.buf[x - 1], s.nv[y - 1];
      assert !Conflict(log, recs, a, b) && Decoded(recs[a]);
      EqualKeysAgree(recs[a].key, k);
    }
  }
}
