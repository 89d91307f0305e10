/** The server's in-memory fixed-window rate limiter. The login, API, public-enterprise and webhook limiters are
    four copies of the same code with different constants; one class with parameters stands for all of them. */
module RateLimiter {
  import opened Wrappers

  const SECOND := 1_000_000_000
  const MINUTE := 60 * SECOND

  datatype Limits = Limits(maxAttempts: nat, window: int, bucketTtl: int, maxKeys: nat)

  const LOGIN := Limits(10, MINUTE, 5 * MINUTE, 10_000)
  const API := Limits(600, MINUTE, 10 * MINUTE, 20_000)
  const ENTERPRISE_PUBLIC := Limits(60, MINUTE, 10 * MINUTE, 10_000)
  const ENTERPRISE_WEBHOOK := Limits(240, MINUTE, 10 * MINUTE, 10_000)

  /** What the four sets of constants have in common: a bucket outlives its window. */
  predicate Sound(l: Limits) {
    l.maxAttempts >= 1 && 0 < l.window <= l.bucketTtl
  }

  datatype Bucket = Bucket(windowStart: int, attempts: nat)

  datatype Decision = Decision(allowed: bool, retryAfter: int, bucket: Bucket)

  /** The decision for one attempt, given the key's bucket. */
  function Decide(b: Option<Bucket>, now: int, l: Limits): Decision {
    if b == None || now - b.value.windowStart >= l.window then
      Decision(true, 0, Bucket(now, 1))
    else if b.value.attempts >= l.maxAttempts then
      var left := l.window - (now - b.value.windowStart);
      Decision(false, if left < SECOND then SECOND else left, b.value)
    else
      Decision(true, 0, Bucket(b.value.windowStart, b.value.attempts + 1))
  }

  // ---- The limiter that never forgets ----

  datatype Attempt<K> = Attempt(key: K, at: int)

  /** The bucket of `k` after a run of attempts, when no bucket is ever removed. */
  function BucketOf<K(==)>(run: seq<Attempt<K>>, k: K, l: Limits): Option<Bucket> {
    if run == [] then None
    else
      var n := |run| - 1;
      var before := BucketOf(run[..n], k, l);
      if run[n].key == k then Some(Decide(before, run[n].at, l).bucket) else before
  }

  /** Whether attempt `i` of the run is admitted. */
  function Admitted<K(==)>(run: seq<Attempt<K>>, i: nat, l: Limits): bool
    requires i < |run|
  {
    Decide(BucketOf(run[..i], run[i].key, l), run[i].at, l).allowed
  }

  predicate Chronological<K>(run: seq<Attempt<K>>) {
    forall i, j :: 0 <= i < j < |run| ==> run[i].at <= run[j].at
  }

  // ---- How much is admitted ----

  /** The number of admissions of `k` in the closed interval from `lo` to `hi`. */
  function AdmissionsIn<K(==)>(run: seq<Attempt<K>>, k: K, lo: int, hi: int, l: Limits): nat {
    if run == [] then 0
    else
      var n := |run| - 1;
      AdmissionsIn(run[..n], k, lo, hi, l)
      + (if run[n].key == k && lo <= run[n].at <= hi && Admitted(run, n, l) then 1 else 0)
  }

  lemma {:induction false} NarrowerAdmitsLess<K>(run: seq<Attempt<K>>, k: K, lo: int, lo': int, hi: int, hi': int,
                                                 l: Limits)
    requires lo <= lo' && hi' <= hi
    ensures AdmissionsIn(run, k, lo', hi', l) <= AdmissionsIn(run, k, lo, hi, l)
  {
    if run != [] {
      NarrowerAdmitsLess(run[..|run| - 1], k, lo, lo', hi, hi', l);
    }
  }

  lemma {:induction false} SplitInterval<K>(run: seq<Attempt<K>>, k: K, lo: int, mid: int, hi: int, l: Limits)
    requires lo <= mid <= hi + 1
    ensures AdmissionsIn(run, k, lo, hi, l)
         == AdmissionsIn(run, k, lo, mid - 1, l) + AdmissionsIn(run, k, mid, hi, l)
  {
    if run != [] {
      SplitInterval(run[..|run| - 1], k, lo, mid, hi, l);
    }
  }

  lemma {:induction false} NothingLater<K>(run: seq<Attempt<K>>, k: K, lo: int, hi: int, l: Limits)
    requires forall i :: 0 <= i < |run| ==> run[i].at < lo
    ensures AdmissionsIn(run, k, lo, hi, l) == 0
  {
    if run != [] {
      NothingLater(run[..|run| - 1], k, lo, hi, l);
    }
  }

  lemma {:induction false} UpToNow<K>(run: seq<Attempt<K>>, k: K, lo: int, hi: int, hi': int, l: Limits)
    requires hi <= hi' && forall i :: 0 <= i < |run| ==> run[i].at <= hi
    ensures AdmissionsIn(run, k, lo, hi, l) == AdmissionsIn(run, k, lo, hi', l)
  {
    if run != [] {
      UpToNow(run[..|run| - 1], k, lo, hi, hi', l);
    }
  }

  /** What a bucket says about the past: its count is exactly the admissions since its window started, and the
      window before it admitted at most the maximum. `now` is any time at or after the whole run. */
  ghost predicate BucketTells<K>(run: seq<Attempt<K>>, k: K, now: int, l: Limits) {
    match BucketOf(run, k, l)
    case None => forall lo, hi :: AdmissionsIn(run, k, lo, hi, l) == 0
    case Some(b) =>
      && b.windowStart <= now
      && 1 <= b.attempts <= l.maxAttempts
      && AdmissionsIn(run, k, b.windowStart, now, l) == b.attempts
      && AdmissionsIn(run, k, b.windowStart - l.window, b.windowStart - 1, l) <= l.maxAttempts
      && AdmissionsIn(run, k, b.windowStart + l.window, now, l) == 0
  }

  lemma {:induction false} BucketsTell<K>(run: seq<Attempt<K>>, k: K, now: int, l: Limits)
    requires Sound(l) && Chronological(run) && forall i :: 0 <= i < |run| ==> run[i].at <= now
    ensures BucketTells(run, k, now, l)
  {
    if run != [] {
      var n := |run| - 1;
      var before, a := run[..n], run[n];
      BucketsTell(before, k, a.at, l);
      if a.key == k {
        BucketTellsStep(run, k, now, l);
      } else if BucketOf(before, k, l).Some? {
        var ws := BucketOf(before, k, l).value.windowStart;
        UpToNow(before, k, ws, a.at, now, l);
        UpToNow(before, k, ws + l.window, a.at, now, l);
      }
    }
  }

  lemma BucketTellsStep<K>(run: seq<Attempt<K>>, k: K, now: int, l: Limits)
    requires Sound(l) && Chronological(run) && run != [] && run[|run| - 1].key == k
    requires forall i :: 0 <= i < |run| ==> run[i].at <= now
    requires BucketTells(run[..|run| - 1], k, run[|run| - 1].at, l)
    ensures BucketTells(run, k, now, l)
  {
    var n := |run| - 1;
    var before, a := run[..n], run[n];
    var b := BucketOf(before, k, l);
    NothingLater(before, k, a.at + l.window, now, l);
    if b.Some? {
      var ws := b.value.windowStart;
      UpToNow(before, k, ws, a.at, now, l);
      UpToNow(before, k, ws + l.window, a.at, now, l);
      if a.at - ws >= l.window {
        // a new window: everything before it counts as the window before
        NarrowerAdmitsLess(before, k, ws + l.window, a.at, now, now, l);
        NarrowerAdmitsLess(before, k, ws, a.at - l.window, now, a.at - 1, l);
      }
    }
  }

  /** In the window its bucket records, a key is admitted at most the maximum number of times. */
  lemma AtMostMaxPerWindow<K>(run: seq<Attempt<K>>, k: K, now: int, l: Limits)
    requires Sound(l) && Chronological(run) && forall i :: 0 <= i < |run| ==> run[i].at <= now
    requires BucketOf(run, k, l).Some?
    ensures var ws := BucketOf(run, k, l).value.windowStart;
            AdmissionsIn(run, k, ws, ws + l.window - 1, l) == BucketOf(run, k, l).value.attempts <= l.maxAttempts
  {
    BucketsTell(run, k, now, l);
    var ws := BucketOf(run, k, l).value.windowStart;
    if now < ws + l.window {
      UpToNow(run, k, ws, now, ws + l.window - 1, l);
    } else {
      SplitInterval(run, k, ws, ws + l.window, now, l);
    }
  }

  /** In any interval of one window length, both ends included, a key is admitted at most twice the maximum. */
  lemma {:induction false} AtMostTwiceMax<K>(run: seq<Attempt<K>>, k: K, t: int, l: Limits)
    requires Sound(l) && Chronological(run)
    ensures AdmissionsIn(run, k, t, t + l.window, l) <= 2 * l.maxAttempts
  {
    if run != [] {
      var n := |run| - 1;
      var now := run[n].at;
      AtMostTwiceMax(run[..n], k, t, l);
      if t <= now <= t + l.window {
        BucketsTell(run, k, now, l);
        if BucketOf(run, k, l).Some? {
          RecentAdmissions(run, k, t, now, l);
        }
        UpToNow(run, k, t, now, t + l.window, l);
      }
    }
  }

  lemma RecentAdmissions<K>(run: seq<Attempt<K>>, k: K, t: int, now: int, l: Limits)
    requires Sound(l) && BucketOf(run, k, l).Some? && BucketTells(run, k, now, l)
    requires t <= now <= t + l.window
    ensures AdmissionsIn(run, k, t, now, l) <= 2 * l.maxAttempts
  {
    var ws := BucketOf(run, k, l).value.windowStart;
    if t >= ws {
      NarrowerAdmitsLess(run, k, ws, t, now, now, l);
    } else {
      SplitInterval(run, k, t, ws, now, l);
      NarrowerAdmitsLess(run, k, ws - l.window, t, ws - 1, ws - 1, l);
    }
  }

  /** An attempt is refused, and told to wait, exactly when its key's window is still open and the maximum has been
      admitted in it. */
  lemma RefusedExactlyAtMaximum<K>(run: seq<Attempt<K>>, k: K, now: int, l: Limits)
    requires Sound(l) && Chronological(run) && forall i :: 0 <= i < |run| ==> run[i].at <= now
    ensures var b := BucketOf(run, k, l);
            !Decide(b, now, l).allowed
            <==> (b.Some? && now < b.value.windowStart + l.window
                  && AdmissionsIn(run, k, b.value.windowStart, now, l) == l.maxAttempts)
    ensures Decide(BucketOf(run, k, l), now, l).allowed <==> Decide(BucketOf(run, k, l), now, l).retryAfter == 0
  {
    hide AdmissionsIn, Chronological, BucketOf;
    BucketsTell(run, k, now, l);
  }

  /** How many attempts of `k` there are. */
  function AttemptsOf<K(==)>(run: seq<Attempt<K>>, k: K): nat {
    if run == [] then 0
    else AttemptsOf(run[..|run| - 1], k) + if run[|run| - 1].key == k then 1 else 0
  }

  /** No window of `k` is open: it has no bucket, or the bucket's window is over. */
  predicate Idle<K(==)>(run: seq<Attempt<K>>, k: K, now: int, l: Limits) {
    var b := BucketOf(run, k, l);
    b == None || now - b.value.windowStart >= l.window
  }

  lemma {:induction false} WindowCounts<K>(run: seq<Attempt<K>>, more: seq<Attempt<K>>, k: K, l: Limits)
    requires Sound(l) && more != [] && more[0].key == k && Idle(run, k, more[0].at, l)
    requires forall i :: 0 <= i < |more| ==> more[0].at <= more[i].at < more[0].at + l.window
    ensures BucketOf(run + more, k, l)
         == Some(Bucket(more[0].at, if AttemptsOf(more, k) < l.maxAttempts then AttemptsOf(more, k) else l.maxAttempts))
  {
    var n := |more| - 1;
    assert (run + more)[..|run + more| - 1] == run + more[..n];
    if n == 0 {
      assert run + more[..0] == run;
      assert AttemptsOf(more[..0], k) == 0;
    } else {
      WindowCounts(run, more[..n], k, l);
    }
  }

  /** After an idle time, whoever else is active meanwhile, exactly the first `maxAttempts` attempts of a key within one
      window are admitted, and every further one is refused. */
  lemma FirstOnesAreAdmitted<K>(run: seq<Attempt<K>>, more: seq<Attempt<K>>, k: K, i: nat, l: Limits)
    requires Sound(l) && i < |more| && more[0].key == k == more[i].key && Idle(run, k, more[0].at, l)
    requires forall j :: 0 <= j < |more| ==> more[0].at <= more[j].at < more[0].at + l.window
    ensures Admitted(run + more, |run| + i, l) <==> AttemptsOf(more[..i], k) < l.maxAttempts
  {
    assert (run + more)[..|run| + i] == run + more[..i];
    if i == 0 {
      assert run + more[..0] == run;
    } else {
      WindowCounts(run, more[..i], k, l);
    }
  }

  /** A denied key is denied until its window ends and admitted from then on, if nobody else uses it; the
      returned wait is exactly the time to that moment, but never less than a second. */
  lemma {:induction false} DeniedUntilWindowEnds<K>(run: seq<Attempt<K>>, k: K, now: int, later: int, l: Limits)
    requires Sound(l) && Chronological(run) && forall i :: 0 <= i < |run| ==> run[i].at <= now
    requires !Decide(BucketOf(run, k, l), now, l).allowed && now <= later
    ensures var b := BucketOf(run, k, l).value;
            var d := Decide(BucketOf(run, k, l), now, l);
            var end := b.windowStart + l.window;
            && BucketOf(run + [Attempt(k, now)], k, l) == Some(b)
            && now < end
            && (Decide(Some(b), later, l).allowed <==> later >= end)
            && d.retryAfter == (if end - now < SECOND then SECOND else end - now)
            && Decide(Some(b), now + d.retryAfter, l).allowed
  {
    hide AdmissionsIn, Chronological;
    BucketsTell(run, k, now, l);
    assert (run + [Attempt(k, now)])[..|run|] == run;
  }

  // ---- The limiter's map ----

  function Live<K(==)>(m: map<K, Bucket>, now: int, ttl: int): map<K, Bucket> {
    map k | k in m && now - m[k].windowStart <= ttl :: m[k]
  }

  function Lookup<K(==)>(m: map<K, Bucket>, k: K): Option<Bucket> {
    if k in m then Some(m[k]) else None
  }

  /** The map holds the bucket that the never-forgetting limiter has, unless that one's lifetime is over. */
  predicate Holds<K(==)>(m: map<K, Bucket>, b: Option<Bucket>, k: K, clock: int, l: Limits) {
    Lookup(m, k) == b || (k !in m && b.Some? && clock - b.value.windowStart > l.bucketTtl)
  }

  lemma CompactionHolds<K>(m: map<K, Bucket>, b: Option<Bucket>, k: K, clock: int, now: int, l: Limits)
    requires Holds(m, b, k, clock, l) && clock <= now
    ensures Holds(Live(m, now, l.bucketTtl), b, k, now, l)
  {
  }

  /** A bucket past its lifetime decides as no bucket at all would. */
  lemma ForgottenIsOver<K>(m: map<K, Bucket>, b: Option<Bucket>, k: K, now: int, l: Limits)
    requires Sound(l) && Holds(m, b, k, now, l)
    ensures Decide(Lookup(m, k), now, l) == Decide(b, now, l)
  {
  }

  /** One more attempt keeps the map in step with the run. */
  lemma AttemptHolds<K(!new)>(m: map<K, Bucket>, run: seq<Attempt<K>>, key: K, now: int, l: Limits)
    requires Sound(l) && forall k :: Holds(m, BucketOf(run, k, l), k, now, l)
    ensures var m' := m[key := Decide(Lookup(m, key), now, l).bucket];
            forall k :: Holds(m', BucketOf(run + [Attempt(key, now)], k, l), k, now, l)
  {
    assert (run + [Attempt(key, now)])[..|run|] == run;
    ForgottenIsOver(m, BucketOf(run, key, l), key, now, l);
    forall k
      ensures Holds(m[key := Decide(Lookup(m, key), now, l).bucket],
                    BucketOf(run + [Attempt(key, now)], k, l), k, now, l)
    {
      assert Holds(m, BucketOf(run, k, l), k, now, l);
    }
  }

  lemma DropOne<K>(live: map<K, Bucket>, m: map<K, Bucket>, k: K)
    requires m.Keys <= live.Keys && m == live - (live.Keys - m.Keys) && k in m
    ensures var m' := m - {k};
            m'.Keys <= live.Keys && m' == live - (live.Keys - m'.Keys) && |m'| == |m| - 1
  {
    assert m.Keys == (m - {k}).Keys + {k};
  }

  class Limiter<K(!new, ==)> {
    const limits: Limits
    var buckets: map<K, Bucket>
    ghost var run: seq<Attempt<K>>
    ghost var clock: int
    ghost var purged: bool     // whether the capacity purge has ever dropped live buckets

    /** As long as nothing was purged, the map holds every bucket that still matters. */
    ghost predicate Valid()
      reads this
    {
      && Sound(limits)
      && Chronological(run)
      && (forall i :: 0 <= i < |run| ==> run[i].at <= clock)
      && (!purged ==> forall k :: Holds(buckets, BucketOf(run, k, limits), k, clock, limits))
    }

    constructor (limits: Limits)
      requires Sound(limits)
      ensures Valid() && run == [] && !purged && this.limits == limits
    {
      this.limits := limits;
      buckets, run, clock, purged := map[], [], 0, false;
    }

    /** Removes the buckets past their lifetime; then, if too many are left, arbitrary ones. */
    method Compact(now: int)
      modifies this`buckets, this`purged
      ensures var live := Live(old(buckets), now, limits.bucketTtl);
              && (|live| <= limits.maxKeys ==> buckets == live && purged == old(purged))
              && (|live| > limits.maxKeys ==>
                    && |buckets| == limits.maxKeys / 2 && buckets.Keys <= live.Keys
                    && buckets == live - (live.Keys - buckets.Keys) && purged)
    {
      ghost var live := Live(buckets, now, limits.bucketTtl);
      if |buckets| == 0 {
        assert live == buckets;
        return;
      }
      RemoveExpired(now);
      if |buckets| <= limits.maxKeys {
        return;
      }
      purged := true;
      while |buckets| > limits.maxKeys / 2
        invariant |buckets| >= limits.maxKeys / 2 && purged
        invariant buckets.Keys <= live.Keys && buckets == live - (live.Keys - buckets.Keys)
        decreases |buckets|
      {
        var k :| k in buckets;
        DropOne(live, buckets, k);
        buckets := buckets - {k};
      }
    }

    method RemoveExpired(now: int)
      modifies this`buckets
      ensures buckets == Live(old(buckets), now, limits.bucketTtl)
    {
      var keys := buckets.Keys;
      while keys != {}
        invariant keys <= buckets.Keys <= old(buckets).Keys
        invariant forall k :: k in buckets ==> buckets[k] == old(buckets)[k]
        invariant forall k :: k in old(buckets) && k !in keys ==>
                    (k in buckets <==> now - old(buckets)[k].windowStart <= limits.bucketTtl)
        decreases keys
      {
        var k :| k in keys;
        if now - buckets[k].windowStart > limits.bucketTtl {
          buckets := buckets - {k};
        }
        keys := keys - {k};
      }
    }

    /** One attempt. As long as nothing was purged, the decision is the one the limiter that never removes a
        bucket would make. */
    method Allow(key: K, now: int) returns (allowed: bool, retryAfter: int)
      requires Valid() && clock <= now
      modifies this
      ensures Valid() && clock == now && run == old(run) + [Attempt(key, now)]
      ensures purged == (old(purged) || |Live(old(buckets), now, limits.bucketTtl)| > limits.maxKeys)
      ensures var live := Live(old(buckets), now, limits.bucketTtl);
              |live| <= limits.maxKeys ==>
                buckets == live[key := Decide(Lookup(live, key), now, limits).bucket]
      ensures !purged ==>
                var d := Decide(BucketOf(old(run), key, limits), now, limits);
                allowed == d.allowed && retryAfter == d.retryAfter
    {
      hide Holds;
      ghost var before := buckets;
      Compact(now);
      ghost var live := buckets;
      if !purged {
        forall k
          ensures Holds(live, BucketOf(run, k, limits), k, now, limits)
        {
          CompactionHolds(before, BucketOf(run, k, limits), k, clock, now, limits);
        }
        ForgottenIsOver(live, BucketOf(run, key, limits), key, now, limits);
        AttemptHolds(live, run, key, now, limits);
      }
      allowed, retryAfter := Count(key, now);
      run := run + [Attempt(key, now)];
      clock := now;
    }

    /** The attempt on the compacted map. */
    method Count(key: K, now: int) returns (allowed: bool, retryAfter: int)
      modifies this`buckets
      ensures var d := Decide(Lookup(old(buckets), key), now, limits);
              buckets == old(buckets)[key := d.bucket] && allowed == d.allowed && retryAfter == d.retryAfter
    {
      var found := Lookup(buckets, key);
      if found == None || now - found.value.windowStart >= limits.window {
        buckets := buckets[key := Bucket(now, 1)];
        allowed, retryAfter := true, 0;
      } else if found.value.attempts >= limits.maxAttempts {
        retryAfter := limits.window - (now - found.value.windowStart);
        if retryAfter < SECOND {
          retryAfter := SECOND;
        }
        allowed := false;
      } else {
        buckets := buckets[key := Bucket(found.value.windowStart, found.value.attempts + 1)];
        allowed, retryAfter := true, 0;
      }
    }
  }

  /** The four limiters of a server. */
  method NewLimiters<K(!new, ==)>()
    returns (login: Limiter<K>, api: Limiter<K>, public: Limiter<K>, webhook: Limiter<K>)
    ensures login.Valid() && api.Valid() && public.Valid() && webhook.Valid()
    ensures login.limits == LOGIN && api.limits == API
    ensures public.limits == ENTERPRISE_PUBLIC && webhook.limits == ENTERPRISE_WEBHOOK
    ensures login.run == api.run == public.run == webhook.run == []
    ensures fresh({login, api, public, webhook}) && |{login, api, public, webhook}| == 4
  {
    login := new Limiter(LOGIN);
    api := new Limiter(API);
    public := new Limiter(ENTERPRISE_PUBLIC);
    webhook := new Limiter(ENTERPRISE_WEBHOOK);
  }
}
