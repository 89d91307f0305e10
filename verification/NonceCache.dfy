/** The agent's replay-protection cache: a map and an insertion-ordered slice kept in step, with a lifetime
    and a capacity. Keys stand for the hexadecimal encodings of nonces, which are one to one.

    The cache is proved to answer as its plain history would: a key is present exactly when it is among the
    last `Capacity(maxSize)` accepted insertions and its lifetime has not passed. */
module NonceCache {

  datatype Entry<K> = Entry(key: K, expiresAt: int)

  /** One accepted insertion: the key, and the clock reading its expiry was computed from. */
  datatype Insertion<K> = Insertion(key: K, at: int)

  /** The eviction loop empties a cache of size zero before it inserts, so such a cache still holds one key. */
  function Capacity(maxSize: nat): nat {
    if maxSize == 0 then 1 else maxSize
  }

  // ---- The history ----

  /** `k` is among the last `cap` insertions of `h`, and at `now` its lifetime has not passed. */
  ghost predicate Remembered<K>(h: seq<Insertion<K>>, k: K, now: int, cap: nat, ttl: int) {
    exists i :: 0 <= i < |h| && |h| - cap <= i && h[i].key == k && now <= h[i].at + ttl
  }

  /** The history after an Add: nothing is recorded for a key that is still held. */
  ghost function Recorded<K>(h: seq<Insertion<K>>, k: K, now: int, stamp: int, cap: nat, ttl: int): seq<Insertion<K>> {
    if Remembered(h, k, now, cap, ttl) then h else h + [Insertion(k, stamp)]
  }

  ghost predicate Chronological<K>(h: seq<Insertion<K>>, clock: int) {
    && (forall i, j :: 0 <= i < j < |h| ==> h[i].at <= h[j].at)
    && (forall i :: 0 <= i < |h| ==> h[i].at <= clock)
  }

  // ---- Map and slice ----

  ghost predicate Listed<K>(order: seq<Entry<K>>, k: K) {
    exists i :: 0 <= i < |order| && order[i].key == k
  }

  /** Map and slice hold the same keys with the same expiries, and the slice has no duplicates. */
  ghost predicate InStep<K>(entries: map<K, int>, order: seq<Entry<K>>) {
    && (forall i, j :: 0 <= i < j < |order| ==> order[i].key != order[j].key)
    && (forall i :: 0 <= i < |order| ==> order[i].key in entries && entries[order[i].key] == order[i].expiresAt)
    && (forall k :: k in entries ==> Listed(order, k))
    && |entries| == |order|
  }

  lemma DropKeepsStep<K>(entries: map<K, int>, order: seq<Entry<K>>)
    requires InStep(entries, order) && order != []
    ensures InStep(entries - {order[0].key}, order[1..])
  {
    var oldest := order[0];
    var rest := entries - {oldest.key};
    assert entries.Keys == rest.Keys + {oldest.key};
    forall k | k in rest
      ensures Listed(order[1..], k)
    {
      assert Listed(order, k);
      var i :| 0 <= i < |order| && order[i].key == k;
      assert order[1..][i - 1].key == k;
    }
  }

  lemma AppendKeepsStep<K>(entries: map<K, int>, order: seq<Entry<K>>, k: K, expiry: int)
    requires InStep(entries, order) && k !in entries
    ensures InStep(entries[k := expiry], order + [Entry(k, expiry)])
  {
    var order' := order + [Entry(k, expiry)];
    assert order'[|order|].key == k;
    forall x | x in entries
      ensures Listed(order', x)
    {
      assert Listed(order, x);
      var i :| 0 <= i < |order| && order[i].key == x;
      assert order'[i].key == x;
    }
  }

  // ---- Slice and history ----

  /** The slice is the end of the history; what came before it is past the capacity or expired.
      `incoming` more insertions are about to use up capacity. */
  ghost predicate Holds<K>(order: seq<Entry<K>>, h: seq<Insertion<K>>, clock: int, cap: nat, ttl: int, incoming: nat) {
    && Chronological(h, clock)
    && |order| <= |h| && |order| <= cap
    && (forall i :: 0 <= i < |order| ==>
          order[i] == Entry(h[|h| - |order| + i].key, h[|h| - |order| + i].at + ttl))
    && (forall i :: 0 <= i < |h| - |order| ==> i < |h| + incoming - cap || h[i].at + ttl < clock)
  }

  lemma DropKeepsHistory<K>(order: seq<Entry<K>>, h: seq<Insertion<K>>, clock: int, cap: nat, ttl: int, incoming: nat)
    requires Holds(order, h, clock, cap, ttl, incoming) && order != []
    requires order[0].expiresAt < clock || |order| + incoming > cap
    ensures Holds(order[1..], h, clock, cap, ttl, incoming)
  {
    assert order[0].expiresAt == h[|h| - |order|].at + ttl;
  }

  lemma AppendKeepsHistory<K>(order: seq<Entry<K>>, h: seq<Insertion<K>>, clock: int, cap: nat, ttl: int, k: K,
                              stamp: int)
    requires Holds(order, h, clock, cap, ttl, 1) && |order| < cap && clock <= stamp
    ensures Holds(order + [Entry(k, stamp + ttl)], h + [Insertion(k, stamp)], stamp, cap, ttl, 0)
  {
  }

  /** The slice is sorted by expiry, which is why expired entries are all at its front. */
  lemma SortedByExpiry<K>(order: seq<Entry<K>>, h: seq<Insertion<K>>, clock: int, cap: nat, ttl: int, incoming: nat)
    requires Holds(order, h, clock, cap, ttl, incoming)
    ensures forall i, j :: 0 <= i < j < |order| ==> order[i].expiresAt <= order[j].expiresAt
  {
  }

  ghost predicate Fresh<K>(order: seq<Entry<K>>, clock: int) {
    forall i :: 0 <= i < |order| ==> clock <= order[i].expiresAt
  }

  lemma TimePasses<K>(order: seq<Entry<K>>, h: seq<Insertion<K>>, clock: int, later: int, cap: nat, ttl: int)
    requires Holds(order, h, clock, cap, ttl, 0) && clock <= later
    ensures Holds(order, h, later, cap, ttl, 0) && Holds(order, h, later, cap, ttl, 1)
  {
  }

  lemma FreshFromFirst<K>(order: seq<Entry<K>>, h: seq<Insertion<K>>, clock: int, cap: nat, ttl: int)
    requires Holds(order, h, clock, cap, ttl, 0) && (order == [] || clock <= order[0].expiresAt)
    ensures Fresh(order, clock)
  {
    SortedByExpiry(order, h, clock, cap, ttl, 0);
  }

  /** Right after an eviction, being held and being remembered are the same. */
  lemma HeldIsRemembered<K>(entries: map<K, int>, order: seq<Entry<K>>, h: seq<Insertion<K>>, clock: int, cap: nat,
                            ttl: int, k: K)
    requires InStep(entries, order) && Holds(order, h, clock, cap, ttl, 0) && Fresh(order, clock)
    ensures k in entries <==> Remembered(h, k, clock, cap, ttl)
  {
    var gone := |h| - |order|;
    if k in entries {
      assert Listed(order, k);
      var i :| 0 <= i < |order| && order[i].key == k;
      assert h[gone + i].key == k;
    }
    if Remembered(h, k, clock, cap, ttl) {
      var i :| 0 <= i < |h| && |h| - cap <= i && h[i].key == k && clock <= h[i].at + ttl;
      assert i >= gone;
      assert order[i - gone].key == k;
    }
  }

  // ---- The cache ----

  class Cache<K(==)> {
    var entries: map<K, int>
    var order: seq<Entry<K>>
    const maxSize: nat
    const ttl: int

    ghost var history: seq<Insertion<K>>
    ghost var clock: int       // the latest clock reading

    ghost predicate Valid()
      reads this
    {
      InStep(entries, order) && Holds(order, history, clock, Capacity(maxSize), ttl, 0)
    }

    constructor (maxSize: nat, ttl: int)
      ensures Valid() && history == [] && this.maxSize == maxSize && this.ttl == ttl
    {
      this.maxSize, this.ttl := maxSize, ttl;
      entries, order, history := map[], [], [];
    }

    /** One turn of either eviction loop: the oldest entry goes, being expired or past the capacity. */
    method DropOldest(ghost incoming: nat)
      requires InStep(entries, order) && Holds(order, history, clock, Capacity(maxSize), ttl, incoming)
      requires order != [] && (order[0].expiresAt < clock || |order| + incoming > Capacity(maxSize))
      modifies this`entries, this`order
      ensures InStep(entries, order) && Holds(order, history, clock, Capacity(maxSize), ttl, incoming)
      ensures order == old(order)[1..] && entries == old(entries) - {old(order)[0].key}
    {
      hide InStep, Holds;
      DropKeepsStep(entries, order);
      DropKeepsHistory(order, history, clock, Capacity(maxSize), ttl, incoming);
      var oldest := order[0];
      order := order[1..];
      entries := entries - {oldest.key};
    }

    method EvictExpired(now: int)
      requires Valid() && clock <= now
      modifies this`entries, this`order, this`clock
      ensures Valid() && clock == now && Fresh(order, now)
    {
      TimePasses(order, history, clock, now, Capacity(maxSize), ttl);
      clock := now;
      while |order| > 0 && now > order[0].expiresAt
        invariant Valid() && clock == now
        decreases |order|
      {
        DropOldest(0);
      }
      FreshFromFirst(order, history, clock, Capacity(maxSize), ttl);
    }

    /** Present exactly when the history remembers the key. */
    method Contains(k: K, now: int) returns (found: bool)
      requires Valid() && clock <= now
      modifies this`entries, this`order, this`clock
      ensures Valid() && clock == now
      ensures found <==> Remembered(history, k, now, if maxSize >= 1 then maxSize else 1, ttl)
    {
      hide InStep, Holds;
      EvictExpired(now);
      HeldIsRemembered(entries, order, history, now, Capacity(maxSize), ttl, k);
      found := k in entries;
    }

    /** `now` is the reading eviction uses, `stamp` the later one the new entry's expiry is computed from. */
    method Add(k: K, now: int, stamp: int)
      requires Valid() && clock <= now <= stamp
      modifies this
      ensures Valid() && clock == stamp
      ensures history == Recorded(old(history), k, now, stamp, Capacity(maxSize), ttl)
    {
      hide InStep, Holds;
      EvictExpired(now);
      HeldIsRemembered(entries, order, history, now, Capacity(maxSize), ttl, k);
      if k in entries {
        TimePasses(order, history, clock, stamp, Capacity(maxSize), ttl);
        clock := stamp;
        return;
      }
      TimePasses(order, history, clock, now, Capacity(maxSize), ttl);
      MakeRoom(k);
      Append(k, stamp);
    }

    /** The capacity loop of Add. */
    method MakeRoom(k: K)
      requires InStep(entries, order) && Holds(order, history, clock, Capacity(maxSize), ttl, 1) && k !in entries
      modifies this`entries, this`order
      ensures InStep(entries, order) && Holds(order, history, clock, Capacity(maxSize), ttl, 1) && k !in entries
      ensures |order| < Capacity(maxSize)
    {
      while |entries| >= maxSize && |order| > 0
        invariant InStep(entries, order) && Holds(order, history, clock, Capacity(maxSize), ttl, 1)
        invariant k !in entries
        decreases |order|
      {
        DropOldest(1);
      }
    }

    method Append(k: K, stamp: int)
      requires InStep(entries, order) && Holds(order, history, clock, Capacity(maxSize), ttl, 1)
      requires |order| < Capacity(maxSize) && k !in entries && clock <= stamp
      modifies this
      ensures Valid() && clock == stamp && history == old(history) + [Insertion(k, stamp)]
    {
      hide InStep, Holds;
      AppendKeepsStep(entries, order, k, stamp + ttl);
      AppendKeepsHistory(order, history, clock, Capacity(maxSize), ttl, k, stamp);
      var expiresAt := stamp + ttl;
      entries := entries[k := expiresAt];
      order := order + [Entry(k, expiresAt)];
      clock, history := stamp, history + [Insertion(k, stamp)];
    }
  }

  // ---- Sequential verification ----

  /** One verification: the nonce presented, whether everything but the nonce check passes, and the clock
      readings of the check, of the insertion's eviction and of the insertion's expiry. */
  datatype Attempt<K> = Attempt(nonce: K, valid: bool, checkAt: int, addAt: int, stampAt: int)

  ghost predicate Grants<K>(h: seq<Insertion<K>>, a: Attempt<K>, cap: nat, ttl: int) {
    a.valid && !Remembered(h, a.nonce, a.checkAt, cap, ttl)
  }

  /** Only granted nonces are added. */
  ghost function HistoryAfter<K>(h: seq<Insertion<K>>, a: Attempt<K>, cap: nat, ttl: int): seq<Insertion<K>> {
    if Grants(h, a, cap, ttl) then Recorded(h, a.nonce, a.addAt, a.stampAt, cap, ttl) else h
  }

  /** The history after a run of verifications. */
  ghost function HistoryOf<K>(attempts: seq<Attempt<K>>, cap: nat, ttl: int): seq<Insertion<K>> {
    if attempts == [] then []
    else
      var n := |attempts| - 1;
      HistoryAfter(HistoryOf(attempts[..n], cap, ttl), attempts[n], cap, ttl)
  }

  ghost predicate Granted<K>(attempts: seq<Attempt<K>>, i: nat, cap: nat, ttl: int)
    requires i < |attempts|
  {
    Grants(HistoryOf(attempts[..i], cap, ttl), attempts[i], cap, ttl)
  }

  /** The clock does not run backwards: within an attempt, and from one attempt to the next. */
  predicate ClockRuns<K>(attempts: seq<Attempt<K>>) {
    && (forall i :: 0 <= i < |attempts| ==>
          attempts[i].checkAt <= attempts[i].addAt <= attempts[i].stampAt)
    && (forall i, j :: 0 <= i < j < |attempts| ==> attempts[i].stampAt <= attempts[j].checkAt)
  }

  ghost function GrantsBetween<K>(attempts: seq<Attempt<K>>, from: nat, until: nat, cap: nat, ttl: int): nat
    requires until <= |attempts|
  {
    if until <= from then 0
    else GrantsBetween(attempts, from, until - 1, cap, ttl) + (if Granted(attempts, until - 1, cap, ttl) then 1 else 0)
  }

  /** A grant is always recorded: nothing that was not held at the check is held at the insertion. */
  lemma GrantIsRecorded<K>(attempts: seq<Attempt<K>>, i: nat, cap: nat, ttl: int)
    requires i < |attempts| && ClockRuns(attempts) && Granted(attempts, i, cap, ttl)
    ensures HistoryOf(attempts[..i + 1], cap, ttl)
         == HistoryOf(attempts[..i], cap, ttl) + [Insertion(attempts[i].nonce, attempts[i].stampAt)]
  {
    assert attempts[..i + 1][..i] == attempts[..i];
    assert attempts[i].checkAt <= attempts[i].addAt;
  }

  lemma {:induction false} HistoryGrows<K>(attempts: seq<Attempt<K>>, from: nat, until: nat, cap: nat, ttl: int)
    requires from <= until <= |attempts| && ClockRuns(attempts)
    ensures HistoryOf(attempts[..from], cap, ttl) <= HistoryOf(attempts[..until], cap, ttl)
    ensures |HistoryOf(attempts[..until], cap, ttl)|
         == |HistoryOf(attempts[..from], cap, ttl)| + GrantsBetween(attempts, from, until, cap, ttl)
    decreases until
  {
    if from < until {
      HistoryGrows(attempts, from, until - 1, cap, ttl);
      assert attempts[..until][..until - 1] == attempts[..until - 1];
      if Granted(attempts, until - 1, cap, ttl) {
        GrantIsRecorded(attempts, until - 1, cap, ttl);
      }
    }
  }

  /** Two grants of the same nonce: by the second check the first one's lifetime has passed, or at least
      `cap` grants, the first included, filled the cache in between. */
  lemma GrantedAtMostOnce<K>(attempts: seq<Attempt<K>>, i: nat, j: nat, cap: nat, ttl: int)
    requires i < j < |attempts| && ClockRuns(attempts) && attempts[i].nonce == attempts[j].nonce
    requires Granted(attempts, i, cap, ttl) && Granted(attempts, j, cap, ttl)
    ensures attempts[j].checkAt > attempts[i].stampAt + ttl || GrantsBetween(attempts, i + 1, j, cap, ttl) >= cap
  {
    GrantIsRecorded(attempts, i, cap, ttl);
    HistoryGrows(attempts, i + 1, j, cap, ttl);
    var h := HistoryOf(attempts[..j], cap, ttl);
    var at := |HistoryOf(attempts[..i], cap, ttl)|;
    assert h[at] == Insertion(attempts[i].nonce, attempts[i].stampAt);
    assert !Remembered(h, attempts[j].nonce, attempts[j].checkAt, cap, ttl);
  }
}
