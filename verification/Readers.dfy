/** The readers at a gateway's doors, end to end: from the list the cloud ships to the relay. Cards are decided per
    lock; a phone's signed answer is not, so every key of the gateway opens whatever door its reader stands at. */
module Readers {
  import opened AccessRules
  import opened Agent
  import opened CredentialSync
  import opened EdgeRules
  import opened NonceCache
  import opened Text
  import opened UserLocks
  import opened Wrappers
  import Codecs
  import Wiegand

  /** The relay's Unlock, called at a reader's door on behalf of a user. */
  datatype Opening = Opening(lockId: string, userId: string)

  /** What does not change about an edge gateway. */
  datatype Edge = Edge(lib: Library, verify: Verifier, ttl: int, capacity: nat, nonceTtl: int)

  type Grants = seq<Insertion<Codecs.Bytes>>

  /** A challenge, the transport of its answer, the clock readings of the verification, and the nonces granted
      before. */
  datatype Session = Session(ch: Codecs.Challenge, transport: string, checkAt: int, addAt: int, stampAt: int,
                             history: Grants)

  ghost predicate WellTimed(s: Session, clock: int) {
    |s.ch.nonce| == Codecs.NONCE_SIZE && clock <= s.checkAt <= s.addAt <= s.stampAt
  }

  /** The answer of a session as the nonce cache sees it. */
  ghost function AttemptOf(e: Edge, updates: seq<Update>, s: Session, resp: Response): Attempt<Codecs.Bytes> {
    var challenge := Codecs.Layout(s.ch);
    Attempt(s.ch.nonce,
            Authentic(e.lib, e.verify, updates, e.ttl, s.ch.gatewayId as nat, challenge, s.transport, resp, s.checkAt),
            s.checkAt, s.addAt, s.stampAt)
  }

  ghost predicate Accepts(e: Edge, updates: seq<Update>, s: Session, resp: Response) {
    NonceCache.Grants(s.history, AttemptOf(e, updates, s, resp), e.capacity, e.nonceTtl)
  }

  ghost function HistoryWith(e: Edge, updates: seq<Update>, s: Session, resp: Response): Grants {
    HistoryAfter(s.history, AttemptOf(e, updates, s, resp), e.capacity, e.nonceTtl)
  }

  lemma NonceFirst(ch: Codecs.Challenge)
    requires |ch.nonce| == Codecs.NONCE_SIZE
    ensures |Codecs.Layout(ch)| == Codecs.CHALLENGE_SIZE && Codecs.Layout(ch)[..Codecs.NONCE_SIZE] == ch.nonce
  {
  }

  // ---- The readers ----

  class BleReader {
    const lockId: string
    const agent: Agent
    var openings: seq<Opening>

    constructor (lockId: string, agent: Agent)
      ensures this.lockId == lockId && this.agent == agent && openings == []
    {
      this.lockId, this.agent, openings := lockId, agent, [];
    }

    ghost function EdgeOf(): Edge {
      Edge(agent.lib, agent.verify, agent.rulesCacheTtl, Capacity(agent.nonceCache.maxSize), agent.nonceCache.ttl)
    }

    /** One session; `resp` is what the phone's answer decodes to, if it does. */
    method HandleSession(ch: Codecs.Challenge, resp: Option<Response>, checkAt: int, addAt: int, stampAt: int,
                         ghost s: Session)
      requires agent.Valid() && agent.nonceCache.Valid() && ch.gatewayId as nat == agent.gatewayId
      requires s == Session(ch, "BLE", checkAt, addAt, stampAt, agent.nonceCache.history)
      requires WellTimed(s, agent.nonceCache.clock)
      modifies this`openings, agent.nonceCache
      ensures agent.nonceCache.Valid() && agent.nonceCache.clock <= stampAt
      ensures resp == None ==> openings == old(openings) && agent.nonceCache.history == s.history
      ensures resp.Some? ==>
                && agent.nonceCache.history == HistoryWith(EdgeOf(), agent.updates, s, resp.value)
                && openings == old(openings)
                               + if Accepts(EdgeOf(), agent.updates, s, resp.value)
                                 then [Opening(lockId, resp.value.userId)] else []
    {
      hide Authentic, Remembered;
      var challenge := Codecs.EncodeChallenge(ch);
      if resp == None {
        return;
      }
      NonceFirst(ch);
      var o := agent.VerifyAuthResponseV2(resp.value, challenge, "BLE", checkAt, addAt, stampAt);
      if o == Granted {
        openings := openings + [Opening(lockId, resp.value.userId)];
      }
    }
  }

  class HceReader {
    const lockId: string
    const agent: Agent
    const cooldown: int
    var lastGranted: Option<(string, int)>
    var openings: seq<Opening>

    constructor (lockId: string, agent: Agent, cooldown: int)
      ensures this.lockId == lockId && this.agent == agent && this.cooldown == cooldown
      ensures openings == [] && lastGranted == None
    {
      this.lockId, this.agent, this.cooldown := lockId, agent, cooldown;
      openings, lastGranted := [], None;
    }

    ghost function EdgeOf(): Edge {
      Edge(agent.lib, agent.verify, agent.rulesCacheTtl, Capacity(agent.nonceCache.maxSize), agent.nonceCache.ttl)
    }

    /** One card presentation. The same user is let in again only after the cooldown, unless someone else came
        between; the nonce is used up in any case. */
    method HandleOnce(ch: Codecs.Challenge, resp: Response, checkAt: int, addAt: int, stampAt: int, now: int,
                      ghost s: Session)
      requires agent.Valid() && agent.nonceCache.Valid() && ch.gatewayId as nat == agent.gatewayId
      requires s == Session(ch, "NFC_HCE", checkAt, addAt, stampAt, agent.nonceCache.history)
      requires WellTimed(s, agent.nonceCache.clock)
      modifies this`openings, this`lastGranted, agent.nonceCache
      ensures agent.nonceCache.Valid() && agent.nonceCache.clock <= stampAt
      ensures agent.nonceCache.history == HistoryWith(EdgeOf(), agent.updates, s, resp)
      ensures var last := old(lastGranted);
              var again := last.Some? && last.value.0 == resp.userId && now < last.value.1 + cooldown;
              var opens := Accepts(EdgeOf(), agent.updates, s, resp) && !again;
              && openings == old(openings) + (if opens then [Opening(lockId, resp.userId)] else [])
              && lastGranted == if opens then Some((resp.userId, now)) else old(lastGranted)
    {
      hide Authentic, Remembered;
      var challenge := Codecs.EncodeChallenge(ch);
      NonceFirst(ch);
      var o := agent.VerifyAuthResponseV2(resp, challenge, "NFC_HCE", checkAt, addAt, stampAt);
      if o == Granted {
        if lastGranted.Some? && resp.userId == lastGranted.value.0 && now - lastGranted.value.1 < cooldown {
          return;
        }
        lastGranted := Some((resp.userId, now));
        openings := openings + [Opening(lockId, resp.userId)];
      }
    }
  }

  // ---- What a signature opens ----

  /** Any updates, and then the list that the cloud ships. */
  datatype Delivery = Delivery(earlier: seq<Update>, locks: Locks, stamp: string, version: string, at: int)

  function RunOf(c: Cloud, d: Delivery): seq<Update> {
    d.earlier + [Full(RulesFor(c, d.locks, d.stamp), d.version, d.at)]
  }

  lemma AfterRun(c: Cloud, d: Delivery)
    ensures After(RunOf(c, d)) == State(RulesFor(c, d.locks, d.stamp), d.version, Some(d.at))
  {
  }

  /** Cache and rules have not expired, and the nonce was not granted before. */
  ghost predicate Fresh(e: Edge, d: Delivery, s: Session) {
    && (e.ttl > 0 ==> s.checkAt <= d.at + e.ttl)
    && (d.stamp != "" && e.lib.parseTime(d.stamp).Some? ==> s.checkAt <= e.lib.parseTime(d.stamp).value)
    && !Remembered(s.history, s.ch.nonce, s.checkAt, e.capacity, e.nonceTtl)
  }

  /** Somebody with a phone the cloud knows, who may open a door of this gateway. */
  ghost predicate KeyHolder(c: Cloud, key: string, id: string) {
    KeyOf(c, key, id) && exists doorId :: doorId in c.boundDoorIds && CloudOpens(c, id, doorId)
  }

  /** The holders of the cloud's credentials can sign: under each key some signature verifies. */
  ghost predicate CanSign(e: Edge, c: Cloud, s: Session) {
    forall cred :: cred in c.credentials ==>
      exists signature :: e.verify(cred.publicKeyPem, s.ch.nonce, cred.userId, s.transport, signature)
  }

  /** Some answer of this user is accepted. */
  ghost predicate LetsIn(e: Edge, c: Cloud, d: Delivery, s: Session, id: string) {
    exists signature :: Accepts(e, RunOf(c, d), s, Response(id, signature))
  }

  /** Over any run that ends in a shipped list, a grant is for a user with an active credential whose key verifies
      the answer, within the lifetimes, and who may open some door that is bound to the gateway. */
  lemma GrantHasAccess(e: Edge, c: Cloud, d: Delivery, s: Session, resp: Response)
    requires Computed(c, d.locks) && |s.ch.nonce| == Codecs.NONCE_SIZE
    requires Accepts(e, RunOf(c, d), s, resp)
    ensures exists key :: KeyHolder(c, key, resp.userId)
                       && e.verify(key, s.ch.nonce, resp.userId, s.transport, resp.signature)
    ensures exists doorId :: doorId in BoundDoors(c.boundDoorIds) && CloudOpens(c, resp.userId, doorId)
    ensures Fresh(e, d, s)
  {
    NonceFirst(s.ch);
    AfterRun(c, d);
    var r :| r in RulesFor(c, d.locks, d.stamp) && IsKey(e.lib, r, resp.userId, s.checkAt)
          && Verifies(e.verify, r, s.ch.nonce, s.transport, resp);
    hide Computed, CloudOpens, RulesFor, KeyOf;
    KeyRulesListOpenDoors(c, d.locks, d.stamp, r);
    assert r.lockIds[0] in r.lockIds;
    assert KeyHolder(c, r.credentialData, resp.userId);
  }

  /** Who a fresh challenge lets in: exactly the key holders. The reader's door plays no part. */
  lemma KeyHoldersAreLetIn(e: Edge, c: Cloud, d: Delivery, s: Session, id: string)
    requires Computed(c, d.locks) && DistinctIds(c.users) && |s.ch.nonce| == Codecs.NONCE_SIZE
    requires Fresh(e, d, s) && CanSign(e, c, s)
    ensures LetsIn(e, c, d, s, id) <==> exists key :: KeyHolder(c, key, id)
  {
    if signature :| Accepts(e, RunOf(c, d), s, Response(id, signature)) {
      GrantHasAccess(e, c, d, s, Response(id, signature));
    }
    if key :| KeyHolder(c, key, id) {
      KeyHolderLetIn(e, c, d, s, key, id);
    }
  }

  lemma KeyHolderLetIn(e: Edge, c: Cloud, d: Delivery, s: Session, key: string, id: string)
    requires Computed(c, d.locks) && DistinctIds(c.users) && |s.ch.nonce| == Codecs.NONCE_SIZE
    requires Fresh(e, d, s) && CanSign(e, c, s) && KeyHolder(c, key, id)
    ensures LetsIn(e, c, d, s, id)
  {
    hide Computed, CloudOpens, RulesFor, DistinctIds;
    KeyIsShipped(c, d.locks, d.stamp, key, id);
    var rules := RulesFor(c, d.locks, d.stamp);
    var r :| r in rules && r.credentialType == BLE && r.credentialData == key && r.userId == id;
    KeyRulesListOpenDoors(c, d.locks, d.stamp, r);
    var signature :| e.verify(key, s.ch.nonce, id, s.transport, signature);
    var resp := Response(id, signature);
    NonceFirst(s.ch);
    AfterRun(c, d);
    ChallengeBoundToGateway(s.ch, s.ch.gatewayId as nat);
    assert IsKey(e.lib, r, id, s.checkAt) && Verifies(e.verify, r, s.ch.nonce, s.transport, resp);
    assert Signed(e.lib, e.verify, RunOf(c, d), s.ch.nonce, s.transport, resp, s.checkAt);
    assert Accepts(e, RunOf(c, d), s, resp);
  }

  /** So a reader stays within the cloud's relation exactly when every key holder of its gateway may open its door. */
  lemma SignedGrantsWithin(e: Edge, c: Cloud, d: Delivery, s: Session, doorId: string)
    requires Computed(c, d.locks) && DistinctIds(c.users) && |s.ch.nonce| == Codecs.NONCE_SIZE
    requires Fresh(e, d, s) && CanSign(e, c, s)
    ensures (forall id :: LetsIn(e, c, d, s, id) ==> CloudOpens(c, id, doorId))
       <==> (forall key, id :: KeyHolder(c, key, id) ==> CloudOpens(c, id, doorId))
  {
    hide LetsIn, KeyHolder, CloudOpens, Computed, DistinctIds, CanSign, Fresh;
    forall id
      ensures LetsIn(e, c, d, s, id) <==> exists key :: KeyHolder(c, key, id)
    {
      KeyHoldersAreLetIn(e, c, d, s, id);
    }
  }

  /** The first holder of the shared card has a phone too, and may open the lab only. A reader at the store of the same
      gateway lets them in. */
  lemma WrongDoorExample(e: Edge, d: Delivery, s: Session)
    requires Computed(SharedCard(), d.locks) && |s.ch.nonce| == Codecs.NONCE_SIZE
    requires Fresh(e, d, s) && CanSign(e, SharedCard(), s)
    ensures LetsIn(e, SharedCard(), d, s, "a") && !CloudOpens(SharedCard(), "a", "store")
  {
    var c := SharedCard();
    hide CloudOpens, DistinctIds, Computed, LetsIn, Fresh, CanSign;
    SharedCardDoors();
    assert c.credentials[0] in c.credentials && "lab" in c.boundDoorIds;
    assert KeyOf(c, "KEY-A", "a");
    assert KeyHolder(c, "KEY-A", "a");
    KeyHoldersAreLetIn(e, c, d, s, "a");
  }

  // ---- Wiegand cards ----

  /** What the Wiegand reader presents is of a kind that no shipped rule has: after any run that ends in a shipped
      list, no card it reports opens any door, whatever data it is presented with. */
  lemma NoWiegandCardOpens(lib: Library, c: Cloud, d: Delivery, ttl: int, run: seq<Wiegand.Event>, i: nat, data: string,
                           doorId: string, now: int)
    requires TagsFold(lib) && i < |Wiegand.Reports(run)|
    requires lib.lower("wiegand_26") == "wiegand_26" && lib.lower("wiegand_34") == "wiegand_34"
    ensures !DecideAfter(lib, RunOf(c, d), ttl, Wiegand.Reports(run)[i].credential, data, doorId, now).allow
  {
    var kind := Wiegand.Reports(run)[i].credential;
    Wiegand.ReportsDecode(run, i);
    assert kind in {"wiegand_26", "wiegand_34"};
    TrimLeaves(kind);
    assert kind[0] == 'w';
    AfterRun(c, d);
    NoOtherKind(lib, c, d.locks, d.stamp, Some(d.at), ttl, kind, data, doorId, now);
  }
}
