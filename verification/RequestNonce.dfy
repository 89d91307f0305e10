/** Replay protection of gateway HTTP requests: the server's in-memory nonce map. */
module RequestNonce {
  import opened Text
  import opened Wrappers

  const SECOND := 1_000_000_000
  const WINDOW := 300 * SECOND

  datatype Outcome =
    | PassedUnchecked      // no headers, and none required
    | Missing
    | Partial
    | InvalidTimestamp
    | TimestampWindow
    | Duplicate
    | Accepted

  /** The X-Request-Timestamp header: absent, malformed, or an instant. */
  datatype Timestamp = Absent | Malformed | At(instant: int)

  /** A request's gateway and its two headers, outer white space removed. */
  datatype Request = Request(gatewayId: string, nonce: string, timestamp: Timestamp)

  function Key(r: Request): string {
    r.gatewayId + ":" + r.nonce
  }

  function Expired(m: map<string, int>, now: int): set<string> {
    set k | k in m && now > m[k]
  }

  /** What validation decides before it looks at the nonces, if it decides there. */
  function Precheck(r: Request, now: int, required: bool): Option<Outcome> {
    if r.nonce == "" && r.timestamp == Absent then Some(if required then Missing else PassedUnchecked)
    else if r.nonce == "" || r.timestamp == Absent then Some(Partial)
    else if r.timestamp == Malformed then Some(InvalidTimestamp)
    else if now - r.timestamp.instant > WINDOW || r.timestamp.instant - now > WINDOW then Some(TimestampWindow)
    else None
  }

  datatype Result = Result(outcome: Outcome, nonces: map<string, int>)

  function Validated(m: map<string, int>, r: Request, now: int, required: bool): Result {
    var pre := Precheck(r, now, required);
    if pre.Some? then Result(pre.value, m)
    else
      var live := m - Expired(m, now);
      if Key(r) in live then Result(Duplicate, live)
      else Result(Accepted, live[Key(r) := now + WINDOW])
  }

  class NonceMap {
    var nonces: map<string, int>
    const required: bool

    constructor (required: bool)
      ensures nonces == map[] && this.required == required
    {
      this.required, nonces := required, map[];
    }

    /** validateGatewayRequestNonce without an external store. */
    method Validate(r: Request, now: int) returns (outcome: Outcome)
      modifies this`nonces
      ensures outcome == Validated(old(nonces), r, now, required).outcome
      ensures nonces == Validated(old(nonces), r, now, required).nonces
    {
      if r.nonce == "" && r.timestamp == Absent {
        if required {
          return Missing;
        }
        return PassedUnchecked;
      }
      if r.nonce == "" || r.timestamp == Absent {
        return Partial;
      }
      if r.timestamp == Malformed {
        return InvalidTimestamp;
      }
      var ts := r.timestamp.instant;
      if now - ts > WINDOW || ts - now > WINDOW {
        return TimestampWindow;
      }
      RemoveExpired(now);
      var nonceKey := r.gatewayId + ":" + r.nonce;
      if nonceKey in nonces {
        return Duplicate;
      }
      nonces := nonces[nonceKey := now + WINDOW];
      return Accepted;
    }

    method RemoveExpired(now: int)
      modifies this`nonces
      ensures nonces == old(nonces) - Expired(old(nonces), now)
    {
      var keys := nonces.Keys;
      while keys != {}
        invariant keys <= nonces.Keys <= old(nonces).Keys
        invariant forall k :: k in nonces ==> nonces[k] == old(nonces)[k]
        invariant forall k :: k in old(nonces) && k !in keys ==> (k in nonces <==> now <= old(nonces)[k])
        decreases keys
      {
        var k :| k in keys;
        if now > nonces[k] {
          nonces := nonces - {k};
        }
        keys := keys - {k};
      }
    }
  }

  // ---- Runs ----

  datatype Arrival = Arrival(request: Request, at: int)

  function NoncesAfter(run: seq<Arrival>, required: bool): map<string, int> {
    if run == [] then map[]
    else
      var n := |run| - 1;
      Validated(NoncesAfter(run[..n], required), run[n].request, run[n].at, required).nonces
  }

  function OutcomeOf(run: seq<Arrival>, i: nat, required: bool): Outcome
    requires i < |run|
  {
    Validated(NoncesAfter(run[..i], required), run[i].request, run[i].at, required).outcome
  }

  predicate Chronological(run: seq<Arrival>) {
    forall i, j :: 0 <= i < j < |run| ==> run[i].at <= run[j].at
  }

  /** When `key` was last accepted. */
  function LastAccepted(run: seq<Arrival>, key: string, required: bool): Option<int> {
    if run == [] then None
    else
      var n := |run| - 1;
      if OutcomeOf(run, n, required) == Accepted && Key(run[n].request) == key then Some(run[n].at)
      else LastAccepted(run[..n], key, required)
  }

  predicate Within(last: Option<int>, now: int) {
    last.Some? && now <= last.value + WINDOW
  }

  predicate Held(m: map<string, int>, key: string, now: int) {
    key in m && now <= m[key]
  }

  /** What one request does to one key, as far as any later time can tell. */
  lemma StepOnKey(m: map<string, int>, r: Request, at: int, required: bool, key: string, now: int)
    requires at <= now
    ensures var v := Validated(m, r, at, required);
            Held(v.nonces, key, now) ==
            if v.outcome == Accepted && Key(r) == key then now <= at + WINDOW else Held(m, key, now)
  {
  }

  lemma OutcomeAt(m: map<string, int>, r: Request, at: int, required: bool)
    requires Precheck(r, at, required) == None
    ensures Validated(m, r, at, required).outcome == if Held(m, Key(r), at) then Duplicate else Accepted
  {
  }

  lemma AcceptedPassedPrecheck(m: map<string, int>, r: Request, at: int, required: bool)
    requires Validated(m, r, at, required).outcome == Accepted
    ensures Precheck(r, at, required) == None
  {
  }

  /** The map, deletions and all, answers for its history: at any later time a key is held and unexpired
      exactly when it was accepted within the window. */
  lemma {:induction false} MapIsHistory(run: seq<Arrival>, key: string, now: int, required: bool)
    requires Chronological(run) && forall i :: 0 <= i < |run| ==> run[i].at <= now
    ensures Held(NoncesAfter(run, required), key, now) == Within(LastAccepted(run, key, required), now)
  {
    if run != [] {
      var n := |run| - 1;
      MapIsHistory(run[..n], key, now, required);
      StepOnKey(NoncesAfter(run[..n], required), run[n].request, run[n].at, required, key, now);
    }
  }

  /** A request that reaches the nonce check is refused exactly when its gateway and nonce were accepted
      within the window. */
  lemma RefusedExactlyWhenRecent(run: seq<Arrival>, i: nat, required: bool)
    requires i < |run| && Chronological(run) && Precheck(run[i].request, run[i].at, required) == None
    ensures OutcomeOf(run, i, required)
         == if Within(LastAccepted(run[..i], Key(run[i].request), required), run[i].at) then Duplicate else Accepted
  {
    MapIsHistory(run[..i], Key(run[i].request), run[i].at, required);
    OutcomeAt(NoncesAfter(run[..i], required), run[i].request, run[i].at, required);
  }

  lemma {:induction false} LastAcceptedSince(run: seq<Arrival>, i: nat, j: nat, required: bool)
    requires i < j <= |run| && Chronological(run) && OutcomeOf(run, i, required) == Accepted
    ensures var last := LastAccepted(run[..j], Key(run[i].request), required);
            last.Some? && last.value >= run[i].at
    decreases j
  {
    var r := run[..j];
    assert r[..j - 1] == run[..j - 1];
    if j > i + 1 {
      LastAcceptedSince(run, i, j - 1, required);
    }
  }

  /** Any two acceptances of one key are more than the window apart. */
  lemma AcceptancesFarApart(run: seq<Arrival>, i: nat, j: nat, required: bool)
    requires i < j < |run| && Chronological(run) && Key(run[i].request) == Key(run[j].request)
    requires OutcomeOf(run, i, required) == OutcomeOf(run, j, required) == Accepted
    ensures run[j].at > run[i].at + WINDOW
  {
    LastAcceptedSince(run, i, j, required);
    AcceptedPassedPrecheck(NoncesAfter(run[..j], required), run[j].request, run[j].at, required);
    RefusedExactlyWhenRecent(run, j, required);
  }

  predicate IsHexDigit(c: char) {
    '0' <= c <= '9' || 'a' <= c <= 'f'
  }

  /** An id as the gateway service draws it: a tag and twelve hexadecimal digits. */
  predicate Generated(id: string) {
    |id| == 15 && id[..3] == "gw_" && forall i :: 3 <= i < 15 ==> IsHexDigit(id[i])
  }

  lemma GeneratedHasNoColon(id: string)
    requires Generated(id)
    ensures ':' !in id
  {
    forall i | 0 <= i < |id|
      ensures id[i] != ':'
    {
      if i < 3 {
        assert id[i] == "gw_"[i];
      }
    }
  }

  /** The key is written without quoting; as ids have no colon it still stands for one gateway and one nonce. */
  lemma KeysTellApart(a: Request, b: Request)
    requires forall id :: id in {a.gatewayId, b.gatewayId} ==> Generated(id) || ':' !in id
    ensures Key(a) == Key(b) <==> a.gatewayId == b.gatewayId && a.nonce == b.nonce
  {
    forall id | id in {a.gatewayId, b.gatewayId} && Generated(id)
      ensures ':' !in id
    {
      GeneratedHasNoColon(id);
    }
    UnquotedPairs(Key(a), a.gatewayId, a.nonce, b.gatewayId, b.nonce);
  }

  /** Which outcome each of the checks stands for, in terms of the headers: absent, one of the two, unreadable, outside
      the window on either side; only what passes them all is looked up. */
  lemma OutcomeMeans(m: map<string, int>, r: Request, now: int, required: bool)
    ensures var o, ts := Validated(m, r, now, required).outcome, r.timestamp;
            && (o == PassedUnchecked <==> r.nonce == "" && ts.Absent? && !required)
            && (o == Missing <==> r.nonce == "" && ts.Absent? && required)
            && (o == Partial <==> (r.nonce == "") != ts.Absent?)
            && (o == InvalidTimestamp <==> r.nonce != "" && ts.Malformed?)
            && (o == TimestampWindow
                <==> (r.nonce != "" && ts.At? && !(now - 300 * SECOND <= ts.instant <= now + 300 * SECOND)))
            && (o == Duplicate || o == Accepted
                <==> (r.nonce != "" && ts.At? && now - 300 * SECOND <= ts.instant <= now + 300 * SECOND))
  {
  }

  lemma AcceptedInWindow(run: seq<Arrival>, i: nat, required: bool)
    requires i < |run| && OutcomeOf(run, i, required) == Accepted
    ensures var ts := run[i].request.timestamp;
            ts.At? && run[i].at - WINDOW <= ts.instant <= run[i].at + WINDOW
  {
    AcceptedPassedPrecheck(NoncesAfter(run[..i], required), run[i].request, run[i].at, required);
  }

  /** One request is accepted at most once in any run if its timestamp is not ahead of the server clock when it
      is first accepted. */
  lemma AcceptedAtMostOnce(run: seq<Arrival>, i: nat, j: nat, required: bool)
    requires i < j < |run| && Chronological(run) && run[i].request == run[j].request
    requires OutcomeOf(run, i, required) == Accepted
    requires run[i].request.timestamp.At? && run[i].request.timestamp.instant <= run[i].at
    ensures OutcomeOf(run, j, required) != Accepted
  {
    if OutcomeOf(run, j, required) == Accepted {
      AcceptancesFarApart(run, i, j, required);
      AcceptedInWindow(run, j, required);
    }
  }

  function Twice(r: Request, now: int, later: int): seq<Arrival> {
    [Arrival(r, now), Arrival(r, later)]
  }

  predicate BothAccepted(r: Request, now: int, later: int, required: bool) {
    OutcomeOf(Twice(r, now, later), 0, required) == OutcomeOf(Twice(r, now, later), 1, required) == Accepted
  }

  /** The condition on the clock is exact: a request first seen at `now` can be accepted a second time, one
      window and more later, if and only if its timestamp was ahead of `now`. */
  lemma SecondAcceptance(r: Request, now: int, required: bool)
    requires Precheck(r, now, required) == None
    ensures r.timestamp.instant > now <==> exists later :: now <= later && BothAccepted(r, now, later, required)
  {
    var ts := r.timestamp.instant;
    if ts > now {
      AcceptedAgain(r, now, ts + WINDOW, required);
      assert BothAccepted(r, now, ts + WINDOW, required);
    }
    if later :| now <= later && BothAccepted(r, now, later, required) {
      if ts <= now {
        AcceptedAtMostOnce(Twice(r, now, later), 0, 1, required);
      }
    }
  }

  lemma AcceptedAgain(r: Request, now: int, later: int, required: bool)
    requires Precheck(r, now, required) == Precheck(r, later, required) == None && now + WINDOW < later
    ensures BothAccepted(r, now, later, required)
  {
    var run := Twice(r, now, later);
    RefusedExactlyWhenRecent(run, 0, required);
    RefusedExactlyWhenRecent(run, 1, required);
    assert run[..1][..0] == [];
  }
}
