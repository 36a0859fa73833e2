/** ZSTLMap: a hash map whose entries sit on bucket chains, on a doubly linked list in recency order
    and, when unused, on a free list; with a limit, a new entry evicts the least recently used one that
    is not pinned.

    An entry's address is a number; each field of all entries is one sequence indexed by address, so that
    assigning a field through a pointer updates that sequence there. */
module LruMap {
  import opened Keys
  import opened LogSpec
  import opened Lists

  const N_ENTRIES_TO_MALLOC: nat := 100

  // ------------------------------------------------------------------ abstract value

  datatype Entry = Entry(key: nat, contents: seq<byte>, refcnt: int)

  /** The entry of a key. */
  function Find(es: seq<Entry>, k: nat): (r: Option<nat>)
    ensures r.Some? ==> r.value < |es| && es[r.value].key == k && (forall i | 0 <= i < r.value :: es[i].key != k)
    ensures r.None? ==> forall i | 0 <= i < |es| :: es[i].key != k
  {
    if es == [] then None else if es[0].key == k then Some(0)
    else
      var r := Find(es[1..], k);
      assert forall i | 1 <= i < |es| :: es[i] == es[1..][i - 1];
      if r.None? then None else Some(r.value + 1)
  }

  /** No two entries of one key. */
  ghost predicate Unique(es: seq<Entry>) {
    forall i, j | 0 <= i < j < |es| :: es[i].key != es[j].key
  }

  lemma FindIs(es: seq<Entry>, i: nat)
    requires Unique(es) && i < |es|
    ensures Find(es, es[i].key) == Some(i)
  {
    hide Find;
    var r := Find(es, es[i].key);
    assert r.Some?;
  }

  /** Move to the front. */
  function Touched(es: seq<Entry>, i: nat): seq<Entry>
    requires i < |es|
  {
    [es[i]] + Without(es, i)
  }

  /** An update: the entry's contents change, and under a limit it moves to the front. */
  function Rewritten(es: seq<Entry>, i: nat, data: seq<byte>, maxEntries: nat): seq<Entry>
    requires i < |es|
  {
    var es' := es[i := es[i].(contents := data)];
    if maxEntries != 0 then Touched(es', i) else es'
  }

  /** The entry evicted beside the new one in front: the last that is not pinned. */
  predicate IsVictim(es: seq<Entry>, v: nat) {
    0 < v < |es| && es[v].refcnt == 0 && forall i | v < i < |es| :: es[i].refcnt > 0
  }

  /** Looking for it from the end; none if all but the first are pinned, or on a count below zero. */
  function Victim(es: seq<Entry>, n: nat): (r: Option<nat>)
    requires n <= |es| && forall i | n <= i < |es| :: es[i].refcnt > 0
    ensures r.Some? ==> IsVictim(es, r.value)
    ensures r.None? ==> forall v :: !IsVictim(es, v)
  {
    if n <= 1 then None
    else if es[n - 1].refcnt == 0 then Some(n - 1)
    else if es[n - 1].refcnt > 0 then Victim(es, n - 1) else None
  }

  /** The map can take one more entry: it has room or a victim. */
  predicate Admits(es: seq<Entry>, e: Entry, maxEntries: nat) {
    maxEntries != 0 && |es| >= maxEntries ==> Victim([e] + es, |es| + 1).Some?
  }

  /** A new entry in front, and the victim gone if that is one too many. */
  function Added(es: seq<Entry>, e: Entry, maxEntries: nat): seq<Entry>
    requires Admits(es, e, maxEntries)
  {
    if maxEntries != 0 && |es| >= maxEntries then Without([e] + es, Victim([e] + es, |es| + 1).value) else [e] + es
  }

  /** The entry that has to go for a new one. */
  function Displaced(es: seq<Entry>, e: Entry, maxEntries: nat): Option<Entry>
    requires Admits(es, e, maxEntries)
  {
    if maxEntries != 0 && |es| >= maxEntries then Some(([e] + es)[Victim([e] + es, |es| + 1).value]) else None
  }

  // -------------------------------------------------------------------- entry records

  function Entries(order: seq<nat>, key: seq<nat>, contents: seq<seq<byte>>, refcnt: seq<int>): (es: seq<Entry>)
    requires Within(order, |key|) && |key| == |contents| == |refcnt|
    ensures |es| == |order|
    ensures forall i | 0 <= i < |es| :: es[i] == Entry(key[order[i]], contents[order[i]], refcnt[order[i]])
  {
    seq(|order|, i requires 0 <= i < |order| => Entry(key[order[i]], contents[order[i]], refcnt[order[i]]))
  }

  /** Every entry in use is in the bucket of its key, and keys are unique. */
  ghost predicate RecordsOk(order: seq<nat>, key: seq<nat>, contents: seq<seq<byte>>, refcnt: seq<int>, bucket: seq<nat>,
                            hash: nat -> nat, nbuckets: nat)
  {
    && nbuckets > 0 && |key| == |contents| == |refcnt| == |bucket| && Within(order, |key|)
    && (forall i | 0 <= i < |order| :: bucket[order[i]] == hash(key[order[i]]) % nbuckets)
    && Unique(Entries(order, key, contents, refcnt))
  }

  /** A new entry in front. */
  lemma RecordsFront(order: seq<nat>, key: seq<nat>, contents: seq<seq<byte>>, refcnt: seq<int>, bucket: seq<nat>,
                     hash: nat -> nat, nbuckets: nat, n: nat, k: nat, data: seq<byte>)
    requires RecordsOk(order, key, contents, refcnt, bucket, hash, nbuckets) && n !in order && n < |key|
    requires Find(Entries(order, key, contents, refcnt), k).None?
    ensures RecordsOk([n] + order, key[n := k], contents[n := data], refcnt[n := 0], bucket[n := hash(k) % nbuckets],
                      hash, nbuckets)
    ensures Entries([n] + order, key[n := k], contents[n := data], refcnt[n := 0]) ==
            [Entry(k, data, 0)] + Entries(order, key, contents, refcnt)
  {
    hide Find;
    var order', es := [n] + order, Entries(order, key, contents, refcnt);
    assert forall i | 0 < i < |order'| :: order'[i] == order[i - 1] && order[i - 1] in order && order'[i] != n;
    EntriesFront(order, key, contents, refcnt, n, k, data);
    UniqueFront(es, Entry(k, data, 0));
    hide Entries, Unique;
  }

  lemma EntriesFront(order: seq<nat>, key: seq<nat>, contents: seq<seq<byte>>, refcnt: seq<int>, n: nat, k: nat, data: seq<byte>)
    requires Within(order, |key|) && |key| == |contents| == |refcnt| && n < |key| && n !in order && Within([n] + order, |key|)
    ensures Entries([n] + order, key[n := k], contents[n := data], refcnt[n := 0]) ==
            [Entry(k, data, 0)] + Entries(order, key, contents, refcnt)
  {
    var order' := [n] + order;
    assert forall i | 0 < i < |order'| :: order'[i] == order[i - 1] && order[i - 1] in order;
  }

  lemma UniqueFront(es: seq<Entry>, e: Entry)
    requires Unique(es) && Find(es, e.key).None?
    ensures Unique([e] + es)
  {
    hide Find;
    var t := [e] + es;
    assert forall j | 0 < j < |t| :: t[j] == es[j - 1];
  }

  lemma RecordsWithout(order: seq<nat>, key: seq<nat>, contents: seq<seq<byte>>, refcnt: seq<int>, bucket: seq<nat>,
                       hash: nat -> nat, nbuckets: nat, i: nat)
    requires RecordsOk(order, key, contents, refcnt, bucket, hash, nbuckets) && i < |order|
    ensures RecordsOk(Without(order, i), key, contents, refcnt, bucket, hash, nbuckets)
    ensures Entries(Without(order, i), key, contents, refcnt) == Without(Entries(order, key, contents, refcnt), i)
  {
    var order', es := Without(order, i), Entries(order, key, contents, refcnt);
    assert forall j | 0 <= j < |order'| :: order'[j] == order[if j < i then j else j + 1];
    var es' := Entries(order', key, contents, refcnt);
    assert forall j | 0 <= j < |es'| :: es'[j] == es[if j < i then j else j + 1];
  }

  lemma RecordsTouched(order: seq<nat>, key: seq<nat>, contents: seq<seq<byte>>, refcnt: seq<int>, bucket: seq<nat>,
                       hash: nat -> nat, nbuckets: nat, i: nat)
    requires RecordsOk(order, key, contents, refcnt, bucket, hash, nbuckets) && i < |order|
    ensures RecordsOk([order[i]] + Without(order, i), key, contents, refcnt, bucket, hash, nbuckets)
    ensures Entries([order[i]] + Without(order, i), key, contents, refcnt) ==
            Touched(Entries(order, key, contents, refcnt), i)
  {
    var order', es := [order[i]] + Without(order, i), Entries(order, key, contents, refcnt);
    assert forall j | 0 < j < |order'| :: order'[j] == order[if j - 1 < i then j - 1 else j];
    var es' := Entries(order', key, contents, refcnt);
    assert forall j | 0 < j < |es'| :: es'[j] == es[if j - 1 < i then j - 1 else j];
  }

  /** Assigning fields of one entry changes that entry only. */
  lemma RecordsSet(order: seq<nat>, key: seq<nat>, contents: seq<seq<byte>>, refcnt: seq<int>, bucket: seq<nat>,
                   hash: nat -> nat, nbuckets: nat, i: nat, data: seq<byte>, count: int)
    requires RecordsOk(order, key, contents, refcnt, bucket, hash, nbuckets) && i < |order| && Distinct(order)
    ensures RecordsOk(order, key, contents[order[i] := data], refcnt[order[i] := count], bucket, hash, nbuckets)
    ensures Entries(order, key, contents[order[i] := data], refcnt[order[i] := count]) ==
            Entries(order, key, contents, refcnt)[i := Entry(key[order[i]], data, count)]
  {
    var es := Entries(order, key, contents, refcnt);
    var es' := Entries(order, key, contents[order[i] := data], refcnt[order[i] := count]);
    assert forall j | 0 <= j < |es'| :: es'[j].key == es[j].key;
  }

  lemma RecordsGrow(order: seq<nat>, key: seq<nat>, contents: seq<seq<byte>>, refcnt: seq<int>, bucket: seq<nat>,
                    hash: nat -> nat, nbuckets: nat, more: nat)
    requires RecordsOk(order, key, contents, refcnt, bucket, hash, nbuckets)
    ensures RecordsOk(order, key + Zeros(more), contents + Empties(more), refcnt + Zeros(more), bucket + Zeros(more),
                      hash, nbuckets)
    ensures Entries(order, key + Zeros(more), contents + Empties(more), refcnt + Zeros(more)) ==
            Entries(order, key, contents, refcnt)
  {
    var es' := Entries(order, key + Zeros(more), contents + Empties(more), refcnt + Zeros(more));
    assert es' == Entries(order, key, contents, refcnt);
  }

  function Zeros(n: nat): (s: seq<nat>) ensures |s| == n { seq(n, _ => 0) }
  function Nulls(n: nat): (s: seq<int>) ensures |s| == n { seq(n, _ => NULL) }
  function Empties(n: nat): (s: seq<seq<byte>>) ensures |s| == n { seq(n, _ => []) }

  // -------------------------------------------------------------------------- the map

  class TlMap {
    const nbuckets: nat
    const maxEntries: nat
    const hash: nat -> nat
    const batch: nat            // how many entries one malloc makes
    var buckets: seq<int>
    var nEntries: nat
    var lruHead: int
    var lruTail: int
    var entries: nat            // NEntries
    var used: nat               // NUsedEntries
    var freeEntries: int

    // fields of the entries
    var key: seq<nat>
    var contents: seq<seq<byte>>
    var refcnt: seq<int>
    var next: seq<int>
    var nextLru: seq<int>
    var prevLru: seq<int>
    var bucket: seq<nat>

    ghost var lru: seq<nat>
    ghost var chains: seq<seq<nat>>
    ghost var free: seq<nat>

    ghost predicate Counted()
      reads this
    {
      && |next| == |nextLru| == |key| == entries
      && nEntries == used == |lru| && entries == |lru| + |free|
    }

    /** List, chains, free list and records fit together. */
    ghost predicate Consistent()
      reads this
    {
      && |chains| == nbuckets && batch > 0 && Counted()
      && DoubleOk(nextLru, prevLru, lru, lruHead, lruTail)
      && TableOk(next, buckets, chains, free, freeEntries, lru, bucket)
      && RecordsOk(lru, key, contents, refcnt, bucket, hash, nbuckets)
    }

    ghost predicate Valid()
      reads this
    {
      Consistent() && (maxEntries > 0 ==> nEntries <= maxEntries)
    }

    /** The entries in list order. */
    ghost function View(): (es: seq<Entry>)
      requires RecordsOk(lru, key, contents, refcnt, bucket, hash, nbuckets)
      reads this
    {
      Entries(lru, key, contents, refcnt)
    }

    constructor (nbuckets: nat, maxEntries: nat, hash: nat -> nat, batch: nat := N_ENTRIES_TO_MALLOC)
      requires nbuckets > 0 && batch > 0
      ensures Valid() && View() == [] && entries == 0 && this.maxEntries == maxEntries
      ensures this.nbuckets == nbuckets && this.hash == hash && this.batch == batch
    {
      this.nbuckets, this.maxEntries, this.hash, this.batch := nbuckets, maxEntries, hash, batch;
      buckets := seq(nbuckets, _ => NULL);
      nEntries, lruHead, lruTail, entries, used, freeEntries := 0, NULL, NULL, 0, 0, NULL;
      key, contents, refcnt, next, nextLru, prevLru, bucket := [], [], [], [], [], [], [];
      lru, free := [], [];
      chains := seq(nbuckets, _ => []);
    }

    // ------------------------------------------------------------------- recency list

    method InsertLru(n: nat)
      requires DoubleOk(nextLru, prevLru, lru, lruHead, lruTail) && n !in lru && n < |nextLru|
      modifies `lruHead, `lruTail, `lru, `nextLru, `prevLru
      ensures DoubleOk(nextLru, prevLru, lru, lruHead, lruTail) && lru == [n] + old(lru) && |nextLru| == old(|nextLru|)
    {
      hide DoubleOk;
      DoubleFront(nextLru, prevLru, lru, lruHead, lruTail, n);
      nextLru := nextLru[n := lruHead];
      if lruHead != NULL {
        prevLru := prevLru[lruHead := n];
      }
      prevLru := prevLru[n := NULL];
      lruHead := n;
      if lruTail == NULL {
        lruTail := n;
      }
      lru := [n] + lru;
    }

    method RemoveLru(n: nat, ghost i: nat)
      requires DoubleOk(nextLru, prevLru, lru, lruHead, lruTail) && i < |lru| && lru[i] == n < |nextLru|
      modifies `lruHead, `lruTail, `lru, `nextLru, `prevLru
      ensures DoubleOk(nextLru, prevLru, lru, lruHead, lruTail)
      ensures lru == Without(old(lru), i) && |nextLru| == old(|nextLru|)
    {
      hide Forward, Backward, Distinct, Without, Bypassed, Backpassed;
      ForwardWithout(nextLru, lru, i);
      BackwardWithout(prevLru, lru, i);
      WithoutDistinct(lru, i);
      WithoutAt(lru, i);
      BypassBack(n, i);
      BypassForward(n, i);
      lru := Without(lru, i);
    }

    /** First half of remove_lru: what follows n points behind n. */
    method BypassBack(n: nat, ghost i: nat)
      requires DoubleOk(nextLru, prevLru, lru, lruHead, lruTail) && i < |lru| && lru[i] == n < |prevLru|
      modifies `lruTail, `prevLru
      ensures prevLru == Backpassed(old(prevLru), lru, i) && prevLru[n] == At(lru, i - 1)
      ensures lruTail == At(lru, if i == |lru| - 1 then i - 1 else |lru| - 1)
    {
      if nextLru[n] == NULL {
        lruTail := prevLru[n];
      } else {
        prevLru := prevLru[nextLru[n] := prevLru[n]];
      }
    }

    /** Second half: what precedes n points beyond n. */
    method BypassForward(n: nat, ghost i: nat)
      requires Distinct(lru) && Forward(nextLru, lru) && lruHead == At(lru, 0) && i < |lru| && lru[i] == n < |prevLru|
      requires prevLru[n] == At(lru, i - 1)
      modifies `lruHead, `nextLru
      ensures nextLru == Bypassed(old(nextLru), lru, i)
      ensures lruHead == At(lru, if i == 0 then 1 else 0)
    {
      if prevLru[n] == NULL {
        lruHead := nextLru[n];
      } else {
        nextLru := nextLru[prevLru[n] := nextLru[n]];
      }
    }

    method UpdateLru(n: nat, ghost i: nat)
      requires DoubleOk(nextLru, prevLru, lru, lruHead, lruTail) && i < |lru| && lru[i] == n < |nextLru|
      modifies `lruHead, `lruTail, `lru, `nextLru, `prevLru
      ensures DoubleOk(nextLru, prevLru, lru, lruHead, lruTail)
      ensures lru == [n] + Without(old(lru), i) && |nextLru| == old(|nextLru|)
    {
      WithoutDistinct(lru, i);
      hide DoubleOk, Without, Distinct;
      RemoveLru(n, i);
      InsertLru(n);
    }

    // ------------------------------------------------------------------------ lookup

    method FindPme(k: nat) returns (n: int)
      requires Consistent()
      ensures n == NULL <==> Find(View(), k).None?
      ensures n != NULL ==> n == lru[Find(View(), k).value] < entries
    {
      hide TableOk, RecordsOk, DoubleOk, Find, Entries;
      RecordsFacts();
      TableFacts(next, buckets, chains, free, freeEntries, lru, bucket);
      var b := hash(k) % nbuckets;
      n := FindInChain(b, k);
      FoundIs(n, b, k);
    }

    lemma RecordsFacts()
      requires Consistent()
      ensures nbuckets > 0 && |key| == |contents| == |refcnt| == |bucket| == entries && Within(lru, entries)
      ensures Distinct(lru) && |lru| <= entries && |nextLru| == |prevLru|
    {
      hide TableOk, Unique;
    }

    method FindInChain(b: nat, k: nat) returns (n: int)
      requires b < |chains| && TableOk(next, buckets, chains, free, freeEntries, lru, bucket) && |next| == |key|
      ensures n == NULL ==> forall p | p in chains[b] :: p < |key| && key[p] != k
      ensures n != NULL ==> n in chains[b] && 0 <= n < |key| && key[n] == k
    {
      hide TableOk;
      TableHead(b);
      n := buckets[b];
      ghost var c := chains[b];
      ghost var j := 0;
      while n != NULL && key[n] != k
        invariant 0 <= j <= |c| && n == At(c, j)
        invariant forall i | 0 <= i < j :: c[i] < |key| && key[c[i]] != k
        invariant n != NULL ==> 0 <= n < |key|
        decreases |c| - j
      {
        TableStep(b, j);
        n := next[n];
        if n != NULL { TableStep(b, j + 1); }
        j := j + 1;
      }
    }

    lemma FoundIs(n: int, b: nat, k: nat)
      requires Consistent() && b == hash(k) % nbuckets
      requires n == NULL ==> forall p | p in chains[b] :: p < |key| && key[p] != k
      requires n != NULL ==> n in chains[b] && 0 <= n < |key| && key[n] == k
      ensures n == NULL <==> Find(View(), k).None?
      ensures n != NULL ==> n == lru[Find(View(), k).value] < entries
    {
      hide Find, Entries, ChainsOk, ChainOk, DoubleOk, Unique;
      if n == NULL {
        forall i | 0 <= i < |lru| ensures View()[i].key != k {
          assert lru[i] in lru && Placed(lru[i], chains, free, bucket);
        }
      } else {
        var p: nat := n;
        MemberBucket(lru, chains, free, bucket, b, p);
        var i :| 0 <= i < |lru| && lru[i] == p;
        FindIs(View(), i);
      }
    }

    /** A hit under a limit moves its entry to the front. */
    method Touch(n: nat, ghost i: nat)
      requires Valid() && i < |lru| && lru[i] == n
      modifies `lruHead, `lruTail, `lru, `nextLru, `prevLru
      ensures Valid() && View() == Touched(old(View()), i) && lru[0] == n
    {
      hide DoubleOk, TableOk, RecordsOk, Entries, Touched, Without;
      RecordsFacts();
      RecordsTouched(lru, key, contents, refcnt, bucket, hash, nbuckets, i);
      WithoutDistinct(lru, i);
      WithoutAt(lru, i);
      TableReordered(next, buckets, chains, free, freeEntries, lru, bucket, [n] + Without(lru, i));
      UpdateLru(n, i);
    }

    method Get(k: nat) returns (r: Option<seq<byte>>)
      requires Valid()
      modifies `lruHead, `lruTail, `lru, `nextLru, `prevLru
      ensures Valid()
      ensures match Find(old(View()), k)
              case None => r.None? && View() == old(View())
              case Some(i) => r == Some(old(View())[i].contents) &&
                              View() == if maxEntries != 0 then Touched(old(View()), i) else old(View())
    {
      hide DoubleOk, TableOk, RecordsOk, Touched, Find;
      RecordsFacts();
      var n := FindPme(k);
      if n == NULL {
        r := None;
      } else {
        ghost var i := Find(View(), k).value;
        r := Some(contents[n]);
        if maxEntries != 0 {
          Touch(n, i);
        }
      }
    }

    /** Assigning contents and reference count through a pointer. */
    method Assign(n: nat, ghost i: nat, data: seq<byte>, count: int)
      requires Valid() && i < |lru| && lru[i] == n
      modifies `contents, `refcnt
      ensures Valid() && View() == old(View())[i := old(View())[i].(contents := data, refcnt := count)]
    {
      hide DoubleOk, TableOk, RecordsOk;
      RecordsFacts();
      RecordsSet(lru, key, contents, refcnt, bucket, hash, nbuckets, i, data, count);
      contents := contents[n := data];
      refcnt := refcnt[n := count];
    }

    method Update(k: nat, data: seq<byte>) returns (found: bool)
      requires Valid()
      modifies this
      ensures Valid()
      ensures match Find(old(View()), k)
              case None => !found && View() == old(View())
              case Some(i) => found && View() == Rewritten(old(View()), i, data, maxEntries)
    {
      hide DoubleOk, TableOk, RecordsOk, Find;
      RecordsFacts();
      var n := FindPme(k);
      found := n != NULL;
      if n != NULL {
        ghost var i := Find(View(), k).value;
        if maxEntries != 0 {
          Touch(n, i);
          Assign(n, 0, data, refcnt[n]);
        } else {
          Assign(n, i, data, refcnt[n]);
        }
      }
    }

    /** ZSTLMapIncrRefcnt and ZSTLMapRelease. */
    method AddRef(k: nat, step: int) returns (found: bool)
      requires Valid()
      modifies this
      ensures Valid()
      ensures match Find(old(View()), k)
              case None => !found && View() == old(View())
              case Some(i) => found && View() == old(View())[i := old(View())[i].(refcnt := old(View())[i].refcnt + step)]
    {
      hide DoubleOk, TableOk, RecordsOk, Find;
      RecordsFacts();
      var n := FindPme(k);
      found := n != NULL;
      if n != NULL {
        Assign(n, Find(View(), k).value, contents[n], refcnt[n] + step);
      }
    }

    // ------------------------------------------------------------------- entry pool

    /** malloc in get_entry: a hundred entries, each pushed on the free list. */
    method Refill()
      requires Consistent() && freeEntries == NULL
      modifies `key, `contents, `refcnt, `next, `nextLru, `prevLru, `bucket, `entries, `freeEntries, `free
      ensures Consistent() && free != [] && View() == old(View())
    {
      hide DoubleOk, TableOk, RecordsOk, Entries, Zeros, Nulls, Empties, Between, ChainOk;
      var base, more := entries, batch;
      ghost var next0, bucket0 := next, bucket;
      TableFacts(next, buckets, chains, free, freeEntries, lru, bucket);
      DoubleGrow(nextLru, prevLru, Nulls(more), lru, lruHead, lruTail);
      RecordsGrow(lru, key, contents, refcnt, bucket, hash, nbuckets, more);
      key, contents, refcnt := key + Zeros(more), contents + Empties(more), refcnt + Zeros(more);
      nextLru, prevLru, bucket := nextLru + Nulls(more), prevLru + Nulls(more), bucket + Zeros(more);
      next := next + Nulls(more);
      entries := entries + more;
      LinkFree(base, more);
      TableGrow(next0, buckets, chains, NULL, lru, bucket0, next, free, freeEntries, Zeros(more));
    }

    method LinkFree(base: nat, more: nat)
      requires |next| == base + more && freeEntries == NULL && free == []
      modifies `next, `freeEntries, `free
      ensures ChainOk(next, free, freeEntries) && |free| == more && |next| == old(|next|)
      ensures Between(free, base, base + more) && next[..base] == old(next[..base])
    {
      assert ChainOk(next, free, freeEntries) && Between(free, base, base);
      hide ChainOk, Between;
      var i := 0;
      while i < more
        invariant 0 <= i <= more && |free| == i && |next| == base + more
        invariant Between(free, base, base + i) && next[..base] == old(next[..base])
        invariant ChainOk(next, free, freeEntries)
      {
        StackFree(next, free, freeEntries, base, i);
        next := next[base + i := freeEntries];
        freeEntries := base + i;
        free := [base + i] + free;
        i := i + 1;
      }
    }

    /** create_pme and what follows it: a free entry is filled in and put on its chain and in front of the list. */
    method Insert(k: nat, data: seq<byte>) returns (n: nat)
      requires Consistent() && Find(View(), k).None?
      modifies this
      ensures Consistent() && View() == [Entry(k, data, 0)] + old(View())
      ensures lru == [n] + old(lru) && n !in old(lru) && entries >= old(entries)
    {
      hide DoubleOk, TableOk, RecordsOk, Entries, Find;
      TableFacts(next, buckets, chains, free, freeEntries, lru, bucket);
      if freeEntries == NULL {
        Refill();
      }
      n := TakeFree(k, data);
    }

    method TakeFree(k: nat, data: seq<byte>) returns (n: nat)
      requires Consistent() && free != [] && Find(View(), k).None?
      modifies this
      ensures Consistent() && View() == [Entry(k, data, 0)] + old(View())
      ensures lru == [n] + old(lru) && n !in old(lru) && entries >= old(entries)
    {
      hide DoubleOk, TableOk, RecordsOk, Entries, Find;
      TableFacts(next, buckets, chains, free, freeEntries, lru, bucket);
      RecordsFacts();
      var b := hash(k) % nbuckets;
      TableInsert(next, buckets, chains, free, freeEntries, lru, bucket, b);
      RecordsFront(lru, key, contents, refcnt, bucket, hash, nbuckets, free[0], k, data);
      n := freeEntries;
      Fill(n, k, data, b);
      InsertLru(n);
    }

    /** The assignments of get_entry, create_pme and the bucket list. */
    method Fill(n: nat, k: nat, data: seq<byte>, b: nat)
      requires n < |key| == |contents| == |refcnt| == |bucket| == |next| && b < |buckets| == |chains| && free != []
      modifies `key, `contents, `refcnt, `bucket, `next, `buckets, `freeEntries, `used, `nEntries, `chains, `free
      ensures freeEntries == old(next)[n] && used == old(used) + 1 && nEntries == old(nEntries) + 1
      ensures key == old(key)[n := k] && contents == old(contents)[n := data] && refcnt == old(refcnt)[n := 0]
      ensures bucket == old(bucket)[n := b] && next == old(next)[n := old(buckets)[b]] && buckets == old(buckets)[b := n]
      ensures chains == old(chains)[b := [n] + old(chains)[b]] && free == old(free)[1..]
    {
      freeEntries := next[n];
      used := used + 1;
      key, contents, refcnt := key[n := k], contents[n := data], refcnt[n := 0];
      next := next[n := NULL];
      bucket := bucket[n := b];
      next := next[n := buckets[b]];
      buckets := buckets[b := n];
      nEntries := nEntries + 1;
      chains, free := chains[b := [n] + chains[b]], free[1..];
    }

    /** *ppme = pme->next */
    method Unlink(n: nat, prev: int, b: nat, ghost j: nat)
      requires b < |chains| == |buckets| && Within(chains[b], |next|) && j < |chains[b]| && chains[b][j] == n
      requires prev == At(chains[b], j - 1)
      modifies `next, `buckets, `chains
      ensures next == Bypassed(old(next), old(chains)[b], j) && chains == old(chains)[b := Without(old(chains)[b], j)]
      ensures buckets == Headed(old(buckets), old(next), old(chains)[b], b, j)
    {
      if prev == NULL {
        buckets := buckets[b := next[n]];
      } else {
        next := next[prev := next[n]];
      }
      chains := chains[b := Without(chains[b], j)];
    }

    /** An entry leaves its chain and the list and becomes free. */
    method Drop(n: nat, prev: int, b: nat, ghost i: nat, ghost j: nat)
      requires Consistent() && i < |lru| && lru[i] == n
      requires b < nbuckets && j < |chains[b]| && chains[b][j] == n && prev == At(chains[b], j - 1)
      modifies this
      ensures Consistent() && View() == Without(old(View()), i)
      ensures lru == Without(old(lru), i) && entries == old(entries)
    {
      hide DoubleOk, TableOk, RecordsOk, Entries, Without, Bypassed, Headed;
      RecordsFacts();
      TableFacts(next, buckets, chains, free, freeEntries, lru, bucket);
      TableDrop(next, buckets, chains, free, freeEntries, lru, bucket, i, b, j);
      RecordsWithout(lru, key, contents, refcnt, bucket, hash, nbuckets, i);
      WithoutAt(lru, i);
      Unlink(n, prev, b, j);
      RemoveLru(n, i);
      nEntries := nEntries - 1;
      next := next[n := freeEntries];
      freeEntries := n;
      used := used - 1;
      free := [n] + free;
    }

    // -------------------------------------------------------------------- replacement

    /** replace_lru's walk from the tail. */
    method FindVictim(first: nat) returns (n: nat)
      requires Consistent() && lru != [] && first == lru[0] && Victim(View(), |lru|).Some?
      ensures n == lru[Victim(View(), |lru|).value] < entries
    {
      hide TableOk, RecordsOk, Victim, Unique, DoubleOk;
      RecordsFacts();
      ghost var v, i := Victim(View(), |lru|).value, |lru| - 1;
      LruPointers(i);
      n := lruTail;
      while !(refcnt[n] == 0 && n != first)
        invariant v <= i < |lru| && n == lru[i] && n < entries
        decreases i
      {
        LruPointers(i);
        assert View()[i].refcnt == refcnt[n];
        n := prevLru[n];
        i := i - 1;
      }
    }

    lemma LruPointers(i: nat)
      requires DoubleOk(nextLru, prevLru, lru, lruHead, lruTail) && i < |lru|
      ensures lruTail == lru[|lru| - 1] && lruHead == lru[0] && lru[i] < |prevLru| == |nextLru|
      ensures prevLru[lru[i]] == At(lru, i - 1) && nextLru[lru[i]] == At(lru, i + 1)
      ensures i > 0 ==> lru[i] != lru[0]
    {}

    /** The link that points to an entry in its chain. */
    method FindLink(n: nat, b: nat) returns (prev: int, ghost j: nat)
      requires TableOk(next, buckets, chains, free, freeEntries, lru, bucket) && b < |chains| && n in chains[b]
      ensures j < |chains[b]| && chains[b][j] == n && prev == At(chains[b], j - 1)
    {
      hide TableOk;
      TableHead(b);
      ghost var c := chains[b];
      ghost var k :| 0 <= k < |c| && c[k] == n;
      prev, j := NULL, 0;
      var cur := buckets[b];
      while cur != n
        invariant 0 <= j <= k && cur == c[j] && prev == At(c, j - 1)
        decreases k - j
      {
        TableStep(b, j);
        prev := cur;
        cur := next[cur];
        j := j + 1;
      }
    }

    lemma TableHead(b: nat)
      requires TableOk(next, buckets, chains, free, freeEntries, lru, bucket) && b < |chains|
      ensures b < |buckets| && buckets[b] == At(chains[b], 0)
      ensures chains[b] != [] ==> chains[b][0] < |next|
    {
      hide MembersOk;
      assert ChainOk(next, chains[b], buckets[b]);
    }

    lemma TableStep(b: nat, j: nat)
      requires TableOk(next, buckets, chains, free, freeEntries, lru, bucket) && b < |chains| && j < |chains[b]|
      ensures chains[b][j] < |next| && next[chains[b][j]] == At(chains[b], j + 1)
    {
      hide ChainOk, MembersOk;
      ChainStep(next, buckets, chains, b, j);
    }

    method ReplaceLru(first: nat) returns (victim: Entry)
      requires Consistent() && lru != [] && first == lru[0] && Victim(View(), |lru|).Some?
      modifies this
      ensures Consistent() && victim == old(View())[Victim(old(View()), old(|lru|)).value]
      ensures View() == Without(old(View()), Victim(old(View()), old(|lru|)).value)
    {
      hide DoubleOk, TableOk, RecordsOk, Victim;
      RecordsFacts();
      var n := FindVictim(first);
      ghost var v := Victim(View(), |lru|).value;
      victim := Entry(key[n], contents[n], refcnt[n]);
      var b := bucket[n];
      InBucket(v);
      ghost var j;
      var prev;
      prev, j := FindLink(n, b);
      Drop(n, prev, b, v, j);
    }

    lemma InBucket(i: nat)
      requires Consistent() && i < |lru|
      ensures lru[i] < |bucket| && bucket[lru[i]] < nbuckets && lru[i] in chains[bucket[lru[i]]]
    {
      hide DoubleOk, RecordsOk;
      assert lru[i] in lru && Placed(lru[i], chains, free, bucket);
    }

    // ------------------------------------------------------------------------ updates

    /** A new entry, evicting one if it is too many. */
    method Add(k: nat, data: seq<byte>) returns (evicted: Option<Entry>)
      requires Valid() && Find(View(), k).None? && Admits(View(), Entry(k, data, 0), maxEntries)
      modifies this
      ensures Valid() && View() == Added(old(View()), Entry(k, data, 0), maxEntries)
      ensures evicted == Displaced(old(View()), Entry(k, data, 0), maxEntries)
    {
      hide DoubleOk, TableOk, RecordsOk, Victim, Find;
      ghost var es := View();
      var n := Insert(k, data);
      if maxEntries > 0 && nEntries > maxEntries {
        var victim := ReplaceLru(n);
        evicted := Some(victim);
      } else {
        evicted := None;
      }
    }

    method Create(k: nat, data: seq<byte>) returns (created: bool, evicted: Option<Entry>)
      requires Valid() && (Find(View(), k).None? ==> Admits(View(), Entry(k, data, 0), maxEntries))
      modifies this
      ensures Valid() && created == Find(old(View()), k).None?
      ensures View() == if created then Added(old(View()), Entry(k, data, 0), maxEntries) else old(View())
      ensures evicted == if created then Displaced(old(View()), Entry(k, data, 0), maxEntries) else None
    {
      hide DoubleOk, TableOk, RecordsOk, Victim, Find, Admits, Added, Displaced, Entries;
      var n := FindPme(k);
      evicted := None;
      created := n == NULL;
      if created {
        evicted := Add(k, data);
      }
    }

    method Set(k: nat, data: seq<byte>) returns (was: Option<seq<byte>>, evicted: Option<Entry>)
      requires Valid() && (Find(View(), k).None? ==> Admits(View(), Entry(k, data, 0), maxEntries))
      modifies this
      ensures Valid()
      ensures match Find(old(View()), k)
              case None => was.None? && View() == Added(old(View()), Entry(k, data, 0), maxEntries) &&
                           evicted == Displaced(old(View()), Entry(k, data, 0), maxEntries)
              case Some(i) => was == Some(old(View())[i].contents) && evicted.None? &&
                              View() == Rewritten(old(View()), i, data, maxEntries)
    {
      hide DoubleOk, TableOk, RecordsOk, Victim, Find, Admits, Added, Displaced;
      RecordsFacts();
      var n := FindPme(k);
      evicted := None;
      if n != NULL {
        ghost var i := Find(View(), k).value;
        was := Some(contents[n]);
        Assign(n, i, data, refcnt[n]);
        if maxEntries != 0 {
          Touch(n, i);
        }
      } else {
        was := None;
        evicted := Add(k, data);
      }
    }

    /** ZSTLMapDelete's walk: the entry of a key in its chain and the link to it. */
    method FindKeyLink(k: nat, b: nat) returns (prev: int, n: int, ghost j: nat)
      requires TableOk(next, buckets, chains, free, freeEntries, lru, bucket) && b < |chains| && |key| == |next|
      ensures n == NULL ==> forall p | p in chains[b] :: p < |key| && key[p] != k
      ensures n != NULL ==> j < |chains[b]| && chains[b][j] == n && prev == At(chains[b], j - 1) && n < |key| && key[n] == k
    {
      hide TableOk;
      TableHead(b);
      ghost var c := chains[b];
      prev, n, j := NULL, buckets[b], 0;
      while n != NULL
        invariant 0 <= j <= |c| && n == At(c, j) && prev == At(c, j - 1)
        invariant forall i | 0 <= i < j :: c[i] < |key| && key[c[i]] != k
        decreases |c| - j
      {
        TableStep(b, j);
        if key[n] == k {
          return;
        }
        prev := n;
        n := next[n];
        j := j + 1;
      }
    }

    method Delete(k: nat) returns (found: bool)
      requires Valid()
      modifies this
      ensures Valid()
      ensures match Find(old(View()), k)
              case None => !found && View() == old(View())
              case Some(i) => found && View() == Without(old(View()), i)
    {
      hide DoubleOk, TableOk, RecordsOk, Find, Entries, Without;
      RecordsFacts();
      var b := hash(k) % nbuckets;
      ghost var j;
      var prev, n;
      prev, n, j := FindKeyLink(k, b);
      FoundIs(n, b, k);
      found := n != NULL;
      if found {
        WithoutAt(View(), Find(View(), k).value);
        Drop(n, prev, b, Find(View(), k).value, j);
      }
    }

    // ---------------------------------------------------------------------- any operation

    method Perform(op: Op) returns (answer: Answer, evicted: Option<Entry>)
      requires Valid() && Permitted(View(), op, maxEntries)
      modifies this
      ensures Valid() && View() == After(old(View()), op, maxEntries)
      ensures answer == AnswerFor(AsMap(old(View())), op) && evicted == Evicts(old(View()), op, maxEntries)
    {
      hide DoubleOk, TableOk, RecordsOk, Find, Victim, Admits, Added, Displaced, Entries, Rewritten, Touched, Without, AsMap;
      if !op.Clear? { AsMapIs(View(), op.k); }
      answer, evicted := Nothing, None;
      match op {
        case Create(k, data) =>
          var created;
          created, evicted := Create(k, data);
          answer := Flag(created);
        case Set(k, data) =>
          var was;
          was, evicted := Set(k, data);
          answer := Value(was);
        case Get(k) =>
          var r := Get(k);
          answer := Value(r);
        case Update(k, data) =>
          var found := Update(k, data);
          answer := Flag(found);
        case Delete(k) =>
          var found := Delete(k);
          answer := Flag(found);
        case AddRef(k, step) =>
          var found := AddRef(k, step);
          answer := Flag(found);
        case Clear => Clear();
      }
    }

    lemma ViewUnique()
      requires Consistent()
      ensures Unique(View())
    {}

    // -------------------------------------------------------------------------- clear

    /** ZSTLMapClear: walks the recency list only, emptying the bucket of every entry it meets. */
    method Clear()
      requires Valid()
      modifies this
      ensures Valid() && View() == [] && used == 0 && |free| == entries == old(entries)
      ensures buckets == Nulls(nbuckets)
    {
      hide DoubleOk, TableOk, RecordsOk, Entries, ChainOk, Nulls;
      RecordsFacts();
      FreeAll();
      nEntries := 0;
      lruHead := NULL;
      lruTail := NULL;
      lru := [];
      chains := seq(nbuckets, _ => []);
      EmptyMap();
    }

    lemma EmptyMap()
      requires nbuckets > 0 && |key| == |contents| == |refcnt| == |bucket| == |next| && |nextLru| == |prevLru|
      requires buckets == Nulls(nbuckets) && |chains| == nbuckets && forall b | 0 <= b < nbuckets :: chains[b] == []
      requires ChainOk(next, free, freeEntries)
      ensures DoubleOk(nextLru, prevLru, [], NULL, NULL)
      ensures TableOk(next, buckets, chains, free, freeEntries, [], bucket)
      ensures RecordsOk([], key, contents, refcnt, bucket, hash, nbuckets)
    {
      hide ChainOk;
      forall b | 0 <= b < nbuckets ensures ChainOk(next, chains[b], buckets[b]) {
        EmptyChain(next);
      }
    }

    method FreeAll()
      requires Consistent()
      modifies `buckets, `next, `freeEntries, `used, `free
      ensures buckets == Nulls(nbuckets) && ChainOk(next, free, freeEntries)
      ensures |free| == entries && used == 0 && |next| == old(|next|)
    {
      hide DoubleOk, TableOk, RecordsOk, Entries, ChainOk, Nulls, Emptied, Distinct, Within;
      RecordsFacts();
      TableFacts(next, buckets, chains, free, freeEntries, lru, bucket);
      ClearStart();
      ghost var next0, buckets0, free0, first0 := next, buckets, free, freeEntries;
      var n := lruHead;
      ghost var i := 0;
      while n != NULL
        invariant 0 <= i <= |lru| && n == At(lru, i) && used == |lru| - i
        invariant |next| == entries && |free| == |free0| + i && ChainOk(next, free, freeEntries)
        invariant forall k | i <= k < |lru| :: lru[k] !in free
        invariant Emptied(buckets, buckets0, bucket, lru, i) && |buckets| == nbuckets
        decreases |lru| - i
      {
        LruPointers(i);
        DistinctAfter(lru, i);
        EmptiedStep(buckets, buckets0, bucket, lru, i);
        PushFree(next, free, freeEntries, n);
        var following := nextLru[n];
        buckets := buckets[bucket[n] := NULL];
        next := next[n := freeEntries];
        freeEntries := n;
        free := [n] + free;
        used := used - 1;
        n := following;
        i := i + 1;
      }
      AllEmptied(next0, buckets0, chains, free0, first0, lru, bucket, buckets);
    }

    lemma ClearStart()
      requires Consistent()
      ensures lruHead == At(lru, 0) && ChainOk(next, free, freeEntries) && Emptied(buckets, buckets, bucket, lru, 0)
      ensures forall k | 0 <= k < |lru| :: lru[k] !in free && lru[k] < |bucket| && bucket[lru[k]] < nbuckets
    {
      hide RecordsOk, ChainsOk, ChainOk;
      forall k | 0 <= k < |lru| ensures lru[k] !in free && lru[k] < |bucket| && bucket[lru[k]] < nbuckets {
        assert lru[k] in lru && Placed(lru[k], chains, free, bucket);
      }
    }
  }

  lemma DistinctAfter(s: seq<nat>, i: nat)
    requires Distinct(s) && i < |s|
    ensures forall k | i < k < |s| :: s[k] != s[i]
  {}

  /** The list meets every bucket that has an entry. */
  lemma AllEmptied(next: seq<int>, buckets0: seq<int>, chains: seq<seq<nat>>, free: seq<nat>, first: int,
                   order: seq<nat>, bucket: seq<nat>, buckets: seq<int>)
    requires TableOk(next, buckets0, chains, free, first, order, bucket)
    requires Emptied(buckets, buckets0, bucket, order, |order|)
    ensures buckets == Nulls(|buckets0|)
  {
    TableFacts(next, buckets0, chains, free, first, order, bucket);
    hide ChainsOk, ChainOk;
    forall b: nat | b < |buckets| ensures buckets[b] == NULL {
      if buckets0[b] != NULL {
        var p := chains[b][0];
        assert p in chains[b];
        MemberBucket(order, chains, free, bucket, b, p);
        var k :| 0 <= k < |order| && order[k] == p;
        assert buckets[bucket[order[k]]] == NULL;
      }
    }
  }

  lemma EmptyChain(next: seq<int>)
    ensures ChainOk(next, [], NULL)
  {}

  /** Buckets while the map is being cleared: the bucket of every entry passed is empty, the others as before. */
  ghost predicate Emptied(buckets: seq<int>, buckets0: seq<int>, bucket: seq<nat>, order: seq<nat>, i: nat) {
    && |buckets| == |buckets0| && i <= |order|
    && (forall b | 0 <= b < |buckets| :: buckets[b] == NULL || buckets[b] == buckets0[b])
    && (forall k | 0 <= k < i :: order[k] < |bucket| && bucket[order[k]] < |buckets| && buckets[bucket[order[k]]] == NULL)
  }

  lemma EmptiedStep(buckets: seq<int>, buckets0: seq<int>, bucket: seq<nat>, order: seq<nat>, i: nat)
    requires Emptied(buckets, buckets0, bucket, order, i) && i < |order|
    requires order[i] < |bucket| && bucket[order[i]] < |buckets|
    ensures Emptied(buckets[bucket[order[i]] := NULL], buckets0, bucket, order, i + 1)
  {}

  // ------------------------------------------------------------------------- runs

  datatype Op =
    | Create(k: nat, data: seq<byte>) | Set(k: nat, data: seq<byte>) | Get(k: nat) | Update(k: nat, data: seq<byte>)
    | Delete(k: nat) | AddRef(k: nat, step: int) | Clear

  /** What an operation returns: contents, or whether the entry was made or found. */
  datatype Answer = Nothing | Value(contents: Option<seq<byte>>) | Flag(yes: bool)

  /** What the plain map answers. */
  function AnswerFor(m: map<nat, Entry>, op: Op): Answer {
    match op
    case Create(k, _) => Flag(k !in m)
    case Set(k, _) => Value(if k in m then Some(m[k].contents) else None)
    case Get(k) => Value(if k in m then Some(m[k].contents) else None)
    case Update(k, _) => Flag(k in m)
    case Delete(k) => Flag(k in m)
    case AddRef(k, _) => Flag(k in m)
    case Clear => Nothing
  }

  /** replace_lru stops the program when there is nothing to evict. */
  predicate Permitted(es: seq<Entry>, op: Op, maxEntries: nat) {
    (op.Create? || op.Set?) && Find(es, op.k).None? ==> Admits(es, Entry(op.k, op.data, 0), maxEntries)
  }

  /** The list after an operation. */
  function After(es: seq<Entry>, op: Op, maxEntries: nat): seq<Entry>
    requires Permitted(es, op, maxEntries)
  {
    match op
    case Clear => []
    case Create(k, data) => if Find(es, k).Some? then es else Added(es, Entry(k, data, 0), maxEntries)
    case Set(k, data) =>
      (match Find(es, k)
       case Some(i) => Rewritten(es, i, data, maxEntries)
       case None => Added(es, Entry(k, data, 0), maxEntries))
    case Get(k) =>
      (match Find(es, k) case Some(i) => if maxEntries != 0 then Touched(es, i) else es case None => es)
    case Update(k, data) =>
      (match Find(es, k) case Some(i) => Rewritten(es, i, data, maxEntries) case None => es)
    case Delete(k) =>
      (match Find(es, k) case Some(i) => Without(es, i) case None => es)
    case AddRef(k, step) =>
      (match Find(es, k) case Some(i) => es[i := es[i].(refcnt := es[i].refcnt + step)] case None => es)
  }

  /** The entry an operation evicts. */
  function Evicts(es: seq<Entry>, op: Op, maxEntries: nat): Option<Entry>
    requires Permitted(es, op, maxEntries)
  {
    if (op.Create? || op.Set?) && Find(es, op.k).None? then Displaced(es, Entry(op.k, op.data, 0), maxEntries) else None
  }

  /** The key an operation uses, if any: a hit, or an entry made. */
  function Uses(es: seq<Entry>, op: Op): Option<nat> {
    match op
    case Create(k, _) => if Find(es, k).None? then Some(k) else None
    case Set(k, _) => Some(k)
    case Get(k) => if Find(es, k).Some? then Some(k) else None
    case Update(k, _) => if Find(es, k).Some? then Some(k) else None
    case _ => None
  }

  /** When a key was last used, counting from 1; 0 if never. */
  function LastUse(uses: seq<nat>, k: nat): nat {
    if uses == [] then 0 else if uses[|uses| - 1] == k then |uses| else LastUse(uses[..|uses| - 1], k)
  }

  function Used(uses: seq<nat>, u: Option<nat>): seq<nat> { if u.Some? then uses + [u.value] else uses }

  /** Entries stand in the order of their last use, latest first. */
  ghost predicate Recent(es: seq<Entry>, uses: seq<nat>) {
    forall i, j | 0 <= i < j < |es| :: LastUse(uses, es[i].key) > LastUse(uses, es[j].key)
  }

  lemma LastUseBound(uses: seq<nat>, k: nat)
    ensures LastUse(uses, k) <= |uses|
  {
    if uses != [] { LastUseBound(uses[..|uses| - 1], k); }
  }

  lemma LastUseSnoc(uses: seq<nat>, k: nat, u: nat)
    ensures LastUse(uses + [u], k) == if k == u then |uses| + 1 else LastUse(uses, k)
  {
    assert (uses + [u])[..|uses|] == uses;
  }

  /** Using a key brings it to the front of what others there are. */
  lemma RecentFront(es: seq<Entry>, uses: seq<nat>, e: Entry)
    requires Recent(es, uses) && forall i | 0 <= i < |es| :: es[i].key != e.key
    ensures Recent([e] + es, uses + [e.key])
  {
    var t := [e] + es;
    forall i, j | 0 <= i < j < |t| ensures LastUse(uses + [e.key], t[i].key) > LastUse(uses + [e.key], t[j].key) {
      LastUseSnoc(uses, t[i].key, e.key);
      LastUseSnoc(uses, t[j].key, e.key);
      LastUseBound(uses, t[j].key);
      assert t[j] == es[j - 1] && (i > 0 ==> t[i] == es[i - 1]);
    }
  }

  lemma RecentWithout(es: seq<Entry>, uses: seq<nat>, i: nat)
    requires Recent(es, uses) && i < |es|
    ensures Recent(Without(es, i), uses)
  {
    WithoutAt(es, i);
    hide Without;
    var t := Without(es, i);
    forall a, b | 0 <= a < b < |t| ensures LastUse(uses, t[a].key) > LastUse(uses, t[b].key) {
      assert t[a] == es[if a < i then a else a + 1] && t[b] == es[if b < i then b else b + 1];
    }
  }

  lemma RecentTouched(es: seq<Entry>, uses: seq<nat>, i: nat)
    requires Recent(es, uses) && Unique(es) && i < |es|
    ensures Recent(Touched(es, i), uses + [es[i].key])
  {
    RecentWithout(es, uses, i);
    WithoutAt(es, i);
    RecentFront(Without(es, i), uses, es[i]);
  }

  lemma RecentSet(es: seq<Entry>, uses: seq<nat>, i: nat, e: Entry)
    requires Recent(es, uses) && i < |es| && e.key == es[i].key
    ensures Recent(es[i := e], uses)
  {}

  /** With a limit, every operation keeps the list in recency order. */
  lemma AfterRecent(es: seq<Entry>, op: Op, maxEntries: nat, uses: seq<nat>)
    requires Permitted(es, op, maxEntries) && Unique(es) && Recent(es, uses) && maxEntries != 0
    ensures Recent(After(es, op, maxEntries), Used(uses, Uses(es, op)))
  {
    hide Find, Victim, Recent, Without, Touched, LastUse;
    match op {
      case Clear => assert Recent([], uses) by { EmptyRecent(uses); }
      case Create(k, data) => if Find(es, k).None? { AddedRecent(es, Entry(k, data, 0), maxEntries, uses); }
      case Set(k, data) =>
        if Find(es, k).None? {
          AddedRecent(es, Entry(k, data, 0), maxEntries, uses);
        } else {
          RewrittenRecent(es, Find(es, k).value, data, maxEntries, uses);
        }
      case Get(k) => if Find(es, k).Some? { RecentTouched(es, uses, Find(es, k).value); }
      case Update(k, data) => if Find(es, k).Some? { RewrittenRecent(es, Find(es, k).value, data, maxEntries, uses); }
      case Delete(k) => if Find(es, k).Some? { RecentWithout(es, uses, Find(es, k).value); }
      case AddRef(k, step) =>
        if Find(es, k).Some? {
          var i := Find(es, k).value;
          RecentSet(es, uses, i, es[i].(refcnt := es[i].refcnt + step));
        }
    }
  }

  lemma EmptyRecent(uses: seq<nat>)
    ensures Recent([], uses)
  {}

  lemma AddedRecent(es: seq<Entry>, e: Entry, maxEntries: nat, uses: seq<nat>)
    requires Find(es, e.key).None? && Admits(es, e, maxEntries) && Recent(es, uses)
    ensures Recent(Added(es, e, maxEntries), uses + [e.key])
  {
    hide Find, Victim, Recent, Without;
    RecentFront(es, uses, e);
    if maxEntries != 0 && |es| >= maxEntries {
      RecentWithout([e] + es, uses + [e.key], Victim([e] + es, |es| + 1).value);
    }
  }

  lemma RewrittenRecent(es: seq<Entry>, i: nat, data: seq<byte>, maxEntries: nat, uses: seq<nat>)
    requires Unique(es) && Recent(es, uses) && i < |es| && maxEntries != 0
    ensures Recent(Rewritten(es, i, data, maxEntries), uses + [es[i].key])
  {
    var es' := es[i := es[i].(contents := data)];
    RecentSet(es, uses, i, es[i].(contents := data));
    hide Recent, Touched;
    RecentTouched(es', uses, i);
  }

  /** The victim is, among the unpinned entries other than the new one, the one used longest ago. */
  lemma VictimIsOldest(es: seq<Entry>, uses: seq<nat>, v: nat, i: nat)
    requires Recent(es, uses) && IsVictim(es, v) && 0 < i < |es| && es[i].refcnt == 0
    ensures i == v || LastUse(uses, es[v].key) < LastUse(uses, es[i].key)
  {}

  // ----------------------------------------------------------------- as a plain map

  /** The map a list of entries stands for. */
  function AsMap(es: seq<Entry>): map<nat, Entry> {
    var keys := set i | 0 <= i < |es| :: es[i].key;
    map k | k in keys && Find(es, k).Some? :: es[Find(es, k).value]
  }

  lemma AsMapIs(es: seq<Entry>, k: nat)
    ensures k in AsMap(es) <==> Find(es, k).Some?
    ensures k in AsMap(es) ==> AsMap(es)[k] == es[Find(es, k).value]
  {}

  lemma MapAt(es: seq<Entry>, i: nat)
    requires Unique(es) && i < |es|
    ensures es[i].key in AsMap(es) && AsMap(es)[es[i].key] == es[i]
  {
    FindIs(es, i);
  }

  /** Two lists of the same entries are the same map. */
  lemma SameMap(es: seq<Entry>, m: map<nat, Entry>)
    requires Unique(es)
    requires forall i | 0 <= i < |es| :: es[i].key in m && m[es[i].key] == es[i]
    requires forall k | k in m :: Find(es, k).Some?
    ensures AsMap(es) == m
  {
    hide Find, AsMap, Unique;
    forall k: nat ensures k in AsMap(es) <==> k in m { AsMapIs(es, k); }
    forall k: nat | k in m ensures AsMap(es)[k] == m[k] { AsMapIs(es, k); }
  }

  lemma UniqueWithout(es: seq<Entry>, i: nat)
    requires Unique(es) && i < |es|
    ensures Unique(Without(es, i))
  {
    WithoutAt(es, i);
    hide Without;
    var t := Without(es, i);
    assert forall j | 0 <= j < |t| :: t[j] == es[if j < i then j else j + 1];
  }

  lemma MapWithout(es: seq<Entry>, i: nat)
    requires Unique(es) && i < |es|
    ensures Unique(Without(es, i)) && AsMap(Without(es, i)) == AsMap(es) - {es[i].key}
  {
    UniqueWithout(es, i);
    hide Without, Find, AsMap, Unique;
    var t, m := Without(es, i), AsMap(es) - {es[i].key};
    forall j | 0 <= j < |t| ensures t[j].key in m && m[t[j].key] == t[j] { WithoutInMap(es, i, j); }
    forall k | k in m ensures Find(t, k).Some? { StillFound(es, i, k); }
    SameMap(t, m);
  }

  lemma WithoutInMap(es: seq<Entry>, i: nat, j: nat)
    requires Unique(es) && i < |es| && j < |Without(es, i)|
    ensures var e := Without(es, i)[j]; e.key in AsMap(es) && AsMap(es)[e.key] == e && e.key != es[i].key
  {
    hide AsMap;
    MapAt(es, if j < i then j else j + 1);
  }

  lemma StillFound(es: seq<Entry>, i: nat, k: nat)
    requires i < |es| && k in AsMap(es) && k != es[i].key
    ensures Find(Without(es, i), k).Some?
  {
    AsMapIs(es, k);
    WithoutAt(es, i);
    hide AsMap, Find, Without;
    var a := Find(es, k).value;
    assert Without(es, i)[if a < i then a else a - 1] == es[a];
  }

  lemma MapFront(es: seq<Entry>, e: Entry)
    requires Unique(es) && Find(es, e.key).None?
    ensures Unique([e] + es) && AsMap([e] + es) == AsMap(es)[e.key := e]
  {
    hide Find, AsMap;
    var t, m := [e] + es, AsMap(es)[e.key := e];
    forall j | 0 <= j < |t| ensures t[j].key in m && m[t[j].key] == t[j] {
      if j > 0 { MapAt(es, j - 1); }
    }
    forall k | k in m ensures Find(t, k).Some? {
      AsMapIs(es, k);
      assert if k == e.key then t[0].key == k else t[Find(es, k).value + 1] == es[Find(es, k).value];
    }
    SameMap(t, m);
  }

  lemma MapSet(es: seq<Entry>, i: nat, e: Entry)
    requires Unique(es) && i < |es| && e.key == es[i].key
    ensures Unique(es[i := e]) && AsMap(es[i := e]) == AsMap(es)[e.key := e]
  {
    hide Find, AsMap;
    var t, m := es[i := e], AsMap(es)[e.key := e];
    forall j | 0 <= j < |t| ensures t[j].key in m && m[t[j].key] == t[j] {
      MapAt(es, j);
    }
    forall k | k in m ensures Find(t, k).Some? {
      AsMapIs(es, k);
      assert if k == e.key then t[i].key == k else t[Find(es, k).value].key == k;
    }
    SameMap(t, m);
  }

  lemma MapTouched(es: seq<Entry>, i: nat)
    requires Unique(es) && i < |es|
    ensures Unique(Touched(es, i)) && AsMap(Touched(es, i)) == AsMap(es)
  {
    hide AsMap, Find, Without, Unique;
    MapAt(es, i);
    MapWithout(es, i);
    AsMapIs(Without(es, i), es[i].key);
    MapFront(Without(es, i), es[i]);
    assert (AsMap(es) - {es[i].key})[es[i].key := es[i]] == AsMap(es);
  }

  /** What an operation does to the plain map, reference counts included, and what it evicts: recency shows
      only in which key that is. */
  ghost predicate MapAfter(m: map<nat, Entry>, m': map<nat, Entry>, es: seq<Entry>, op: Op, maxEntries: nat,
                           gone: Option<Entry>)
  {
    match op
    case Clear => m' == map[] && gone.None?
    case Delete(k) => m' == m - {k} && gone.None?
    case Get(_) => m' == m && gone.None?
    case AddRef(k, step) => m' == (if k in m then m[k := m[k].(refcnt := m[k].refcnt + step)] else m) && gone.None?
    case Update(k, data) => m' == (if k in m then m[k := m[k].(contents := data)] else m) && gone.None?
    case Create(k, data) =>
      if k in m then m' == m && gone.None? else MapAdded(m, m', es, Entry(k, data, 0), maxEntries, gone)
    case Set(k, data) =>
      if k in m then m' == m[k := m[k].(contents := data)] && gone.None?
      else MapAdded(m, m', es, Entry(k, data, 0), maxEntries, gone)
  }

  ghost predicate MapAdded(m: map<nat, Entry>, m': map<nat, Entry>, es: seq<Entry>, e: Entry, maxEntries: nat,
                           gone: Option<Entry>)
  {
    if maxEntries != 0 && |es| >= maxEntries
    then exists v: nat ::
           IsVictim([e] + es, v) && gone == Some(([e] + es)[v]) && m' == m[e.key := e] - {([e] + es)[v].key}
    else gone.None? && m' == m[e.key := e]
  }

  lemma AddedMap(es: seq<Entry>, e: Entry, maxEntries: nat)
    requires Unique(es) && Find(es, e.key).None? && Admits(es, e, maxEntries)
    ensures var es', gone := Added(es, e, maxEntries), Displaced(es, e, maxEntries);
            Unique(es') && MapAdded(AsMap(es), AsMap(es'), es, e, maxEntries, gone)
  {
    hide AsMap, Find, Victim, Without;
    MapFront(es, e);
    if maxEntries != 0 && |es| >= maxEntries {
      MapWithout([e] + es, Victim([e] + es, |es| + 1).value);
    }
  }

  lemma RewrittenMap(es: seq<Entry>, i: nat, data: seq<byte>, maxEntries: nat)
    requires Unique(es) && i < |es|
    ensures AsMap(Rewritten(es, i, data, maxEntries)) == AsMap(es)[es[i].key := es[i].(contents := data)]
  {
    MapSet(es, i, es[i].(contents := data));
    hide AsMap, Touched;
    if maxEntries != 0 { MapTouched(es[i := es[i].(contents := data)], i); }
  }

  lemma AfterMap(es: seq<Entry>, op: Op, maxEntries: nat)
    requires Permitted(es, op, maxEntries) && Unique(es)
    ensures MapAfter(AsMap(es), AsMap(After(es, op, maxEntries)), es, op, maxEntries, Evicts(es, op, maxEntries))
  {
    hide Find, Victim, AsMap, Touched, Without, Added, Rewritten, Unique, MapAdded;
    if !op.Clear? { AsMapIs(es, op.k); }
    match op {
      case Clear => assert AsMap([]) == map[] by { EmptyMapIs(); }
      case Create(k, data) => if Find(es, k).None? { AddedMap(es, Entry(k, data, 0), maxEntries); }
      case Set(k, data) =>
        if Find(es, k).None? {
          AddedMap(es, Entry(k, data, 0), maxEntries);
        } else {
          RewrittenMap(es, Find(es, k).value, data, maxEntries);
        }
      case Get(k) => if Find(es, k).Some? { MapTouched(es, Find(es, k).value); }
      case Update(k, data) => if Find(es, k).Some? { RewrittenMap(es, Find(es, k).value, data, maxEntries); }
      case Delete(k) => if Find(es, k).Some? { MapWithout(es, Find(es, k).value); }
      case AddRef(k, step) =>
        if Find(es, k).Some? {
          var i := Find(es, k).value;
          MapSet(es, i, es[i].(refcnt := es[i].refcnt + step));
        }
    }
  }

  /** Without a limit no use moves an entry: the list stands in the order in which the entries were made. */
  ghost predicate Unmoved(es: seq<Entry>, es': seq<Entry>, op: Op) {
    if op.Clear? then es' == []
    else if op.Delete? && Find(es, op.k).Some? then es' == Without(es, Find(es, op.k).value)
    else if (op.Create? || op.Set?) && Find(es, op.k).None? then es' == [Entry(op.k, op.data, 0)] + es
    else |es'| == |es| && forall i | 0 <= i < |es| :: es'[i].key == es[i].key
  }

  lemma UnlimitedUnmoved(es: seq<Entry>, op: Op)
    requires Permitted(es, op, 0)
    ensures Unmoved(es, After(es, op, 0), op)
  {
    hide Find, Without, Victim;
  }

  lemma EmptyMapIs()
    ensures AsMap([]) == map[]
  {}

  /** replace_lru never fails to find a victim along a run. */
  ghost predicate Feasible(es: seq<Entry>, ops: seq<Op>, maxEntries: nat)
    decreases ops
  {
    ops == [] || (Permitted(es, ops[0], maxEntries) && Feasible(After(es, ops[0], maxEntries), ops[1..], maxEntries))
  }

  ghost function AfterAll(es: seq<Entry>, ops: seq<Op>, maxEntries: nat): seq<Entry>
    requires Feasible(es, ops, maxEntries)
    decreases ops
  {
    if ops == [] then es else AfterAll(After(es, ops[0], maxEntries), ops[1..], maxEntries)
  }

  ghost function UsesOf(es: seq<Entry>, ops: seq<Op>, maxEntries: nat, uses: seq<nat>): seq<nat>
    requires Feasible(es, ops, maxEntries)
    decreases ops
  {
    if ops == [] then uses
    else UsesOf(After(es, ops[0], maxEntries), ops[1..], maxEntries, Used(uses, Uses(es, ops[0])))
  }

  /** What an operation returns to its caller and hands to the replacement callback. */
  datatype Outcome = Outcome(answer: Answer, evicted: Option<Entry>)

  /** One operation of a run: the list follows the list functions, the entries are a plain map that the
      operation changes as it should, the answer is the plain map's, and the victim is handed over. */
  ghost predicate Played(es: seq<Entry>, op: Op, out: Outcome, es': seq<Entry>, maxEntries: nat) {
    && Permitted(es, op, maxEntries) && es' == After(es, op, maxEntries)
    && MapAfter(AsMap(es), AsMap(es'), es, op, maxEntries, out.evicted) && out.answer == AnswerFor(AsMap(es), op)
    && (maxEntries == 0 ==> Unmoved(es, es', op))
  }

  method Play(m: TlMap, op: Op) returns (out: Outcome)
    requires m.Valid() && Permitted(m.View(), op, m.maxEntries)
    modifies m
    ensures m.Valid() && Played(old(m.View()), op, out, m.View(), m.maxEntries)
  {
    hide Find, Victim, Permitted, After, Unique, Entries, DoubleOk, TableOk, RecordsOk, MapAfter, AsMap, AnswerFor;
    m.ViewUnique();
    AfterMap(m.View(), op, m.maxEntries);
    if m.maxEntries == 0 { UnlimitedUnmoved(m.View(), op); }
    hide Unmoved;
    var answer, evicted := m.Perform(op);
    out := Outcome(answer, evicted);
  }

  /** Any run of operations on an empty map: the map in memory follows the list functions and the plain map,
      answers as the plain map does and hands over every victim; with a limit it keeps its list in the recency
      order of the keys used and never exceeds the limit; without one it keeps the order in which they were made. */
  method RunMap(m: TlMap, ops: seq<Op>) returns (outs: seq<Outcome>, ghost lists: seq<seq<Entry>>)
    requires m.Valid() && m.View() == [] && Feasible([], ops, m.maxEntries)
    modifies m
    ensures m.Valid() && m.View() == AfterAll([], ops, m.maxEntries)
    ensures m.maxEntries != 0 ==> |m.View()| <= m.maxEntries && Recent(m.View(), UsesOf([], ops, m.maxEntries, []))
    ensures |lists| == |ops| + 1 && |outs| == |ops| && lists[0] == [] && m.View() == lists[|ops|]
    ensures forall i | 0 <= i < |ops| :: Played(lists[i], ops[i], outs[i], lists[i + 1], m.maxEntries)
  {
    hide Find, Victim, Permitted, After, Unique, Entries, DoubleOk, TableOk, RecordsOk, LastUse, Recent, Used, Uses, MapAfter,
         AsMap, AnswerFor;
    ghost var uses := [];
    EmptyRecent([]);
    outs, lists := [], [m.View()];
    assert ops[0..] == ops;
    for n := 0 to |ops|
      invariant m.Valid() && Feasible(m.View(), ops[n..], m.maxEntries)
      invariant AfterAll(m.View(), ops[n..], m.maxEntries) == AfterAll([], ops, m.maxEntries)
      invariant UsesOf(m.View(), ops[n..], m.maxEntries, uses) == UsesOf([], ops, m.maxEntries, [])
      invariant m.maxEntries != 0 ==> Recent(m.View(), uses)
      invariant |lists| == n + 1 && |outs| == n && lists[0] == [] && m.View() == lists[n]
      invariant forall i | 0 <= i < n :: Played(lists[i], ops[i], outs[i], lists[i + 1], m.maxEntries)
    {
      assert ops[n..][0] == ops[n] && ops[n..][1..] == ops[n + 1..];
      m.ViewUnique();
      if m.maxEntries != 0 { AfterRecent(m.View(), ops[n], m.maxEntries, uses); }
      uses := Used(uses, Uses(m.View(), ops[n]));
      var out := Play(m, ops[n]);
      outs, lists := outs + [out], lists + [m.View()];
    }
  }
}
