/** The edge agent's access state: rule updates arriving over HTTP and WebSocket, card decisions, and the version 2
    challenge-response verification with its replay cache. Each method runs under the agent's mutex, so a run of
    the agent is a sequence of calls. */
module Agent {
  import opened Codecs
  import opened EdgeRules
  import opened NonceCache
  import opened Text
  import opened Wrappers

  datatype Outcome = TooShort | CacheExpired | NonceReuse | GatewayMismatch | UnknownUser | InvalidSignature | Granted

  datatype Response = Response(userId: string, signature: Bytes)

  /** Does a signature over nonce, user and transport tag verify under a public key? */
  type Verifier = (string, Bytes, string, string, Bytes) -> bool

  predicate ForGateway(challenge: Bytes, gatewayId: nat) {
    |challenge| >= CHALLENGE_SIZE ==> Number(challenge[48..52]) == gatewayId
  }

  predicate IsKey(lib: Library, r: Rule, userId: string, now: int) {
    r.credentialType == "ble_signature" && r.userId == userId && !Expired(lib, r, now)
  }

  predicate Verifies(verify: Verifier, r: Rule, nonce: Bytes, transport: string, resp: Response) {
    verify(r.credentialData, nonce, resp.userId, transport, resp.signature)
  }

  ghost predicate HasKey(lib: Library, updates: seq<Update>, userId: string, now: int) {
    exists r :: r in After(updates).rules && IsKey(lib, r, userId, now)
  }

  /** Some key that the agent holds for the user after `updates` verifies the response. */
  ghost predicate Signed(lib: Library, verify: Verifier, updates: seq<Update>, nonce: Bytes, transport: string,
                         resp: Response, now: int)
  {
    exists r :: r in After(updates).rules && IsKey(lib, r, resp.userId, now)
             && Verifies(verify, r, nonce, transport, resp)
  }

  /** Everything a grant needs besides an unused nonce. */
  ghost predicate Authentic(lib: Library, verify: Verifier, updates: seq<Update>, ttl: int, gatewayId: nat,
                            challenge: Bytes, transport: string, resp: Response, now: int)
  {
    && |challenge| >= NONCE_SIZE
    && !Stale(After(updates).updatedAt, ttl, now)
    && ForGateway(challenge, gatewayId)
    && Signed(lib, verify, updates, challenge[..NONCE_SIZE], transport, resp, now)
  }

  class Agent {
    const lib: Library
    const verify: Verifier
    const rulesCacheTtl: int
    const gatewayId: nat
    const nonceCache: Cache<Bytes>

    var accessRules: seq<Rule>
    var ruleVersion: string
    var rulesUpdatedAt: Option<int>

    ghost var updates: seq<Update>

    ghost predicate Valid()
      reads this
    {
      State(accessRules, ruleVersion, rulesUpdatedAt) == After(updates)
    }

    constructor (lib: Library, verify: Verifier, rulesCacheTtl: int, gatewayId: nat, maxNonces: nat, nonceTtl: int)
      ensures Valid() && updates == [] && fresh(nonceCache) && nonceCache.Valid() && nonceCache.history == []
      ensures this.lib == lib && this.verify == verify
      ensures this.rulesCacheTtl == rulesCacheTtl && this.gatewayId == gatewayId
      ensures nonceCache.maxSize == maxNonces && nonceCache.ttl == nonceTtl
    {
      this.lib, this.verify := lib, verify;
      this.rulesCacheTtl, this.gatewayId := rulesCacheTtl, gatewayId;
      nonceCache := new Cache(maxNonces, nonceTtl);
      accessRules, ruleVersion, rulesUpdatedAt := [], "", None;
      updates := [];
    }

    /** The state update at the end of a config pull, and a config push. */
    method ReplaceRules(rules: seq<Rule>, version: string, now: int)
      requires Valid()
      modifies this
      ensures Valid() && updates == old(updates) + [Full(rules, version, now)]
    {
      accessRules, ruleVersion, rulesUpdatedAt := rules, version, Some(now);
      updates := updates + [Full(rules, version, now)];
    }

    method HandleCredentialPush(rules: seq<Rule>, version: string, incremental: bool, now: int)
      requires Valid()
      modifies this
      ensures Valid()
      ensures updates == old(updates)
                         + [if incremental then Incremental(rules, version, now) else Full(rules, version, now)]
    {
      if incremental {
        for i := 0 to |rules|
          invariant accessRules == Merge(old(accessRules), rules[..i])
          invariant updates == old(updates)
        {
          MergeIn(rules[i]);
          assert rules[..i + 1][..i] == rules[..i];
        }
        assert rules[..|rules|] == rules;
      } else {
        accessRules := rules;
      }
      ruleVersion, rulesUpdatedAt := version, Some(now);
      updates := updates + [if incremental then Incremental(rules, version, now) else Full(rules, version, now)];
    }

    /** One turn of the merge: overwrite the first rule with the same key, or append. */
    method MergeIn(incoming: Rule)
      modifies this`accessRules
      ensures accessRules == MergeOne(old(accessRules), incoming)
    {
      for i := 0 to |accessRules|
        invariant accessRules == old(accessRules)
        invariant forall j :: 0 <= j < i ==> !SameKey(accessRules[j], incoming)
      {
        if SameKey(accessRules[i], incoming) {
          accessRules := accessRules[i := incoming];
          return;
        }
      }
      accessRules := accessRules + [incoming];
    }

    method VerifyCredential(credentialType: string, credentialData: string, lockId: string, now: int)
      returns (d: Decision)
      requires Valid()
      ensures d == DecideAfter(lib, updates, rulesCacheTtl, credentialType, credentialData, lockId, now)
    {
      if Stale(rulesUpdatedAt, rulesCacheTtl, now) {
        return NOBODY;
      }
      var data, kind := lib.upper(Trim(credentialData)), lib.lower(Trim(credentialType));
      for i := 0 to |accessRules|
        invariant FirstMatch(lib, accessRules[..i], kind, data) == None
      {
        var rule := accessRules[i];
        assert accessRules[..i + 1][..i] == accessRules[..i];
        if Matches(lib, rule, kind, data) {
          FirstMatchExtends(lib, accessRules, i + 1, kind, data);
          if Expired(lib, rule, now) {
            return Decision(false, rule.userId, rule.userEmail);
          }
          var listed := Among(rule.lockIds, lockId);
          return Decision(listed, rule.userId, rule.userEmail);
        }
      }
      assert accessRules[..|accessRules|] == accessRules;
      return NOBODY;
    }

    /** A response is granted exactly when it is authentic and its nonce is not remembered; only a grant is
        recorded. `checkAt`, `addAt` and `stampAt` are the clock readings of the checks, of the insertion's
        eviction and of the insertion's expiry. */
    method VerifyAuthResponseV2(resp: Response, challenge: Bytes, transport: string, checkAt: int, addAt: int,
                                stampAt: int)
      returns (o: Outcome)
      requires Valid() && nonceCache.Valid() && nonceCache.clock <= checkAt <= addAt <= stampAt
      modifies nonceCache
      ensures nonceCache.Valid() && nonceCache.clock <= stampAt
      ensures var c, authentic := nonceCache,
                Authentic(lib, verify, updates, rulesCacheTtl, gatewayId, challenge, transport, resp, checkAt);
              if |challenge| < NONCE_SIZE then o == TooShort && c.history == old(c.history)
              else
                var a := Attempt(challenge[..NONCE_SIZE], authentic, checkAt, addAt, stampAt);
                && (o == Granted <==> Grants(old(c.history), a, Capacity(c.maxSize), c.ttl))
                && c.history == HistoryAfter(old(c.history), a, Capacity(c.maxSize), c.ttl)
      ensures o == TooShort <==> |challenge| < NONCE_SIZE
      ensures o == CacheExpired
         <==> |challenge| >= NONCE_SIZE && Stale(After(updates).updatedAt, rulesCacheTtl, checkAt)
      ensures o == NonceReuse ==>
        Remembered(old(nonceCache.history), challenge[..NONCE_SIZE], checkAt,
                   Capacity(nonceCache.maxSize), nonceCache.ttl)
      ensures o == GatewayMismatch ==> !ForGateway(challenge, gatewayId)
      ensures o == UnknownUser || o == InvalidSignature ==> ForGateway(challenge, gatewayId)
      ensures o == UnknownUser ==> !HasKey(lib, updates, resp.userId, checkAt)
      ensures o == InvalidSignature ==> HasKey(lib, updates, resp.userId, checkAt)
    {
      if |challenge| < NONCE_SIZE {
        return TooShort;
      }
      var nonce := challenge[..NONCE_SIZE];
      if Stale(rulesUpdatedAt, rulesCacheTtl, checkAt) {
        return CacheExpired;
      }
      var seen := nonceCache.Contains(nonce, checkAt);
      if seen {
        return NonceReuse;
      }
      if |challenge| >= CHALLENGE_SIZE && Number(challenge[48..52]) != gatewayId {
        return GatewayMismatch;
      }
      o := CheckSignature(resp, nonce, transport, checkAt);
      if o == Granted {
        nonceCache.Add(nonce, addAt, stampAt);
      }
    }

    /** Steps 3 and 4 of the chain: look up the user's keys and try each. */
    method CheckSignature(resp: Response, nonce: Bytes, transport: string, now: int) returns (o: Outcome)
      requires Valid()
      ensures o in {UnknownUser, InvalidSignature, Granted}
      ensures o == UnknownUser <==> !HasKey(lib, updates, resp.userId, now)
      ensures o == Granted <==> Signed(lib, verify, updates, nonce, transport, resp, now)
    {
      var candidates := Candidates(resp.userId, now);
      if candidates == [] {
        return UnknownUser;
      }
      assert candidates[0] in candidates;
      var matched := AnyVerifies(candidates, nonce, transport, resp);
      return if matched then Granted else InvalidSignature;
    }

    /** The user's unexpired keys, in list order. */
    method Candidates(userId: string, now: int) returns (candidates: seq<Rule>)
      ensures forall r :: r in candidates <==> r in accessRules && IsKey(lib, r, userId, now)
    {
      candidates := [];
      for i := 0 to |accessRules|
        invariant forall r :: r in candidates <==> r in accessRules[..i] && IsKey(lib, r, userId, now)
      {
        assert accessRules[..i + 1] == accessRules[..i] + [accessRules[i]];
        if IsKey(lib, accessRules[i], userId, now) {
          candidates := candidates + [accessRules[i]];
        }
      }
      assert accessRules[..|accessRules|] == accessRules;
    }

    method AnyVerifies(candidates: seq<Rule>, nonce: Bytes, transport: string, resp: Response) returns (matched: bool)
      ensures matched <==> exists r :: r in candidates && Verifies(verify, r, nonce, transport, resp)
    {
      for i := 0 to |candidates|
        invariant forall j :: 0 <= j < i ==> !Verifies(verify, candidates[j], nonce, transport, resp)
      {
        if Verifies(verify, candidates[i], nonce, transport, resp) {
          return true;
        }
      }
      return false;
    }
  }

  method Among(ids: seq<string>, id: string) returns (found: bool)
    ensures found <==> id in ids
  {
    for i := 0 to |ids|
      invariant id !in ids[..i]
    {
      if ids[i] == id {
        return true;
      }
    }
    return false;
  }

  /** Rules behind a match do not matter. */
  lemma {:induction false} FirstMatchExtends(lib: Library, rules: seq<Rule>, n: nat, kind: string, data: string)
    requires n <= |rules| && FirstMatch(lib, rules[..n], kind, data).Some?
    ensures FirstMatch(lib, rules, kind, data) == FirstMatch(lib, rules[..n], kind, data)
  {
    if n < |rules| {
      assert rules[..|rules| - 1][..n] == rules[..n];
      FirstMatchExtends(lib, rules[..|rules| - 1], n, kind, data);
    } else {
      assert rules[..n] == rules;
    }
  }

  /** When full lists come without duplicate keys, a response is signed by a key that is in force: a revoked or
      replaced key verifies nothing. */
  lemma SignedByKeyInForce(lib: Library, verify: Verifier, updates: seq<Update>, nonce: Bytes, transport: string,
                           resp: Response, now: int)
    requires Clean(updates)
    ensures Signed(lib, verify, updates, nonce, transport, resp, now)
       <==> exists r :: Latest(updates, r) == Some(r) && IsKey(lib, r, resp.userId, now)
                     && Verifies(verify, r, nonce, transport, resp)
  {
    forall r
      ensures r in After(updates).rules <==> Latest(updates, r) == Some(r)
    {
      HoldsNothingElse(updates, r);
    }
  }

  /** A challenge issued for one gateway is answered at no other. */
  lemma ChallengeBoundToGateway(c: Challenge, gatewayId: nat)
    requires |c.nonce| == NONCE_SIZE
    ensures ForGateway(Layout(c), gatewayId) <==> c.gatewayId as nat == gatewayId
  {
    ChallengeRoundTrip(c);
  }
}
