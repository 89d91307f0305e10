/** The credential service's part of the rule list: which mobile keys a gateway gets, and for which of its locks. */
module CredentialSync {

  datatype Credential = Credential(userId: string, userEmail: string, publicKeyPem: string, status: string,
                                   expiresAt: int)

  /** A credential as it is handed over for one gateway. */
  datatype Mobile = Mobile(publicKeyPem: string, userId: string, userEmail: string, lockIds: seq<string>)

  /** The locks each user may open, as lists. */
  type Locks = map<string, seq<string>>

  predicate Active(c: Credential, now: int) {
    c.status == "active" && c.expiresAt > now
  }

  function ActiveOf(credentials: seq<Credential>, now: int): seq<Credential> {
    if credentials == [] then []
    else
      var n := |credentials| - 1;
      ActiveOf(credentials[..n], now) + if Active(credentials[n], now) then [credentials[n]] else []
  }

  /** The gateway's locks that the user may open, in the gateway's order. */
  function Matched(gatewayLocks: seq<string>, userLocks: seq<string>): seq<string> {
    if gatewayLocks == [] then []
    else
      var n := |gatewayLocks| - 1;
      Matched(gatewayLocks[..n], userLocks) + if gatewayLocks[n] in userLocks then [gatewayLocks[n]] else []
  }

  function Entry(c: Credential, gatewayLocks: seq<string>, locks: Locks): seq<Mobile> {
    if c.userId !in locks || Matched(gatewayLocks, locks[c.userId]) == [] then []
    else [Mobile(c.publicKeyPem, c.userId, c.userEmail, Matched(gatewayLocks, locks[c.userId]))]
  }

  function Entries(active: seq<Credential>, gatewayLocks: seq<string>, locks: Locks): seq<Mobile> {
    if active == [] then []
    else
      var n := |active| - 1;
      Entries(active[..n], gatewayLocks, locks) + Entry(active[n], gatewayLocks, locks)
  }

  // ---- The loops ----

  method ListActiveCredentials(credentials: seq<Credential>, now: int) returns (active: seq<Credential>)
    ensures active == ActiveOf(credentials, now)
  {
    active := [];
    for i := 0 to |credentials|
      invariant active == ActiveOf(credentials[..i], now)
    {
      assert credentials[..i + 1][..i] == credentials[..i];
      if Active(credentials[i], now) {
        active := active + [credentials[i]];
      }
    }
    assert credentials[..|credentials|] == credentials;
  }

  method Intersect(gatewayLocks: seq<string>, userLocks: seq<string>) returns (matched: seq<string>)
    ensures matched == Matched(gatewayLocks, userLocks)
  {
    matched := [];
    for i := 0 to |gatewayLocks|
      invariant matched == Matched(gatewayLocks[..i], userLocks)
    {
      assert gatewayLocks[..i + 1][..i] == gatewayLocks[..i];
      for j := 0 to |userLocks|
        invariant gatewayLocks[i] !in userLocks[..j]
        invariant matched == Matched(gatewayLocks[..i], userLocks)
      {
        if gatewayLocks[i] == userLocks[j] {
          matched := matched + [gatewayLocks[i]];
          break;
        }
      }
      assert userLocks[..|userLocks|] == userLocks;
    }
    assert gatewayLocks[..|gatewayLocks|] == gatewayLocks;
  }

  method BuildGatewayCredentialSync(credentials: seq<Credential>, gatewayLocks: seq<string>, locks: Locks, now: int)
    returns (result: seq<Mobile>)
    ensures result == Entries(ActiveOf(credentials, now), gatewayLocks, locks)
  {
    var active := ListActiveCredentials(credentials, now);
    result := [];
    for i := 0 to |active|
      invariant result == Entries(active[..i], gatewayLocks, locks)
    {
      var cred := active[i];
      assert active[..i + 1][..i] == active[..i];
      if cred.userId !in locks {
        continue;
      }
      var matched := Intersect(gatewayLocks, locks[cred.userId]);
      if |matched| == 0 {
        continue;
      }
      result := result + [Mobile(cred.publicKeyPem, cred.userId, cred.userEmail, matched)];
    }
    assert active[..|active|] == active;
  }

  // ---- What is handed over ----

  lemma {:induction false} MatchedAre(gatewayLocks: seq<string>, userLocks: seq<string>, d: string)
    ensures d in Matched(gatewayLocks, userLocks) <==> d in gatewayLocks && d in userLocks
  {
    if gatewayLocks != [] {
      var n := |gatewayLocks| - 1;
      MatchedAre(gatewayLocks[..n], userLocks, d);
      assert gatewayLocks == gatewayLocks[..n] + [gatewayLocks[n]];
    }
  }

  lemma {:induction false} ActiveAre(credentials: seq<Credential>, now: int, c: Credential)
    ensures c in ActiveOf(credentials, now) <==> c in credentials && c.status == "active" && c.expiresAt > now
  {
    if credentials != [] {
      var n := |credentials| - 1;
      ActiveAre(credentials[..n], now, c);
      assert credentials == credentials[..n] + [credentials[n]];
    }
  }

  lemma {:induction false} EntriesAre(active: seq<Credential>, gatewayLocks: seq<string>, locks: Locks, m: Mobile)
    ensures m in Entries(active, gatewayLocks, locks) <==> exists c :: c in active && m in Entry(c, gatewayLocks, locks)
  {
    hide Entry;
    if active != [] {
      var n := |active| - 1;
      EntriesAre(active[..n], gatewayLocks, locks, m);
      assert active == active[..n] + [active[n]];
    }
  }

  /** `m` carries the key of an active credential and exactly the gateway's locks its user may open, of which there
      is at least one. */
  ghost predicate HandedOver(credentials: seq<Credential>, gatewayLocks: seq<string>, locks: Locks, now: int, m: Mobile)
  {
    && (exists c :: c in credentials && c.status == "active" && c.expiresAt > now
                 && c.userId == m.userId && c.userEmail == m.userEmail && c.publicKeyPem == m.publicKeyPem)
    && m.userId in locks && m.lockIds != [] && m.lockIds == Matched(gatewayLocks, locks[m.userId])
  }

  lemma SyncHandsOver(credentials: seq<Credential>, gatewayLocks: seq<string>, locks: Locks, now: int, m: Mobile)
    ensures m in Entries(ActiveOf(credentials, now), gatewayLocks, locks)
       <==> HandedOver(credentials, gatewayLocks, locks, now, m)
  {
    hide Matched;
    var active := ActiveOf(credentials, now);
    EntriesAre(active, gatewayLocks, locks, m);
    if c :| c in active && m in Entry(c, gatewayLocks, locks) {
      ActiveAre(credentials, now, c);
    }
    if HandedOver(credentials, gatewayLocks, locks, now, m) {
      var c :| c in credentials && c.status == "active" && c.expiresAt > now
            && c.userId == m.userId && c.userEmail == m.userEmail && c.publicKeyPem == m.publicKeyPem;
      ActiveAre(credentials, now, c);
      assert m in Entry(c, gatewayLocks, locks);
    }
  }
}
