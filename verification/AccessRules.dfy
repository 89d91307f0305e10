/** The rule list the cloud ships to a gateway, and the proof that the edge's first-match scan over it decides as
    the cloud's access relation would. */
module AccessRules {
  import opened CredentialSync
  import opened EdgeRules
  import opened SortedStrings
  import opened Text
  import opened UserLocks
  import opened Wrappers

  datatype Item = Item(uid: string, cardNumber: string, assignedPassId: string)
  datatype Pass = Pass(uid: string, targetType: string, targetId: string, status: string)

  /** The tenant's physical cards, the lookup of a pass by id, and the listed passes. */
  datatype Wallet = Wallet(inventory: seq<Item>, findPass: string -> Option<Pass>, passes: seq<Pass>)

  const NFC := "nfc_uid"
  const CARD := "card_number"
  const BLE := "ble_signature"
  const HOUR := 3600 * 1_000_000_000

  // ---- What is shipped ----

  function EmailOf(users: seq<User>, id: string): string {
    if users == [] then "" else if users[0].id == id then users[0].email else EmailOf(users[1..], id)
  }

  function Target(pass: Pass): Option<string> {
    if pass.targetType != "user" || pass.status != "active" then None else Some(pass.targetId)
  }

  /** The user a card in the inventory opens doors for. */
  function ItemTarget(w: Wallet, item: Item): Option<string> {
    if item.uid == "" || item.assignedPassId == "" then None
    else
      var pass := w.findPass(item.assignedPassId);
      if pass == None then None else Target(pass.value)
  }

  function PassTarget(pass: Pass): Option<string> {
    if pass.uid == "" then None else Target(pass)
  }

  function CardRule(kind: string, data: string, id: string, users: seq<User>, locks: Locks, stamp: string): Rule
    requires id in locks
  {
    Rule(kind, data, id, EmailOf(users, id), locks[id], stamp)
  }

  function ItemRules(w: Wallet, item: Item, users: seq<User>, locks: Locks, stamp: string): seq<Rule> {
    var id := ItemTarget(w, item);
    if id == None || id.value !in locks then []
    else
      [CardRule(NFC, item.uid, id.value, users, locks, stamp)]
      + if item.cardNumber == "" then [] else [CardRule(CARD, item.cardNumber, id.value, users, locks, stamp)]
  }

  function InventoryRules(w: Wallet, items: seq<Item>, users: seq<User>, locks: Locks, stamp: string): seq<Rule> {
    if items == [] then []
    else
      var n := |items| - 1;
      InventoryRules(w, items[..n], users, locks, stamp) + ItemRules(w, items[n], users, locks, stamp)
  }

  predicate Covered(rules: seq<Rule>, uid: string) {
    exists r :: r in rules && r.credentialType == NFC && r.credentialData == uid
  }

  /** The rules so far, followed by those of the passes whose UID no earlier rule has. */
  function WithPasses(rules: seq<Rule>, passes: seq<Pass>, users: seq<User>, locks: Locks, stamp: string): seq<Rule> {
    if passes == [] then rules
    else
      var n := |passes| - 1;
      var before, id := WithPasses(rules, passes[..n], users, locks, stamp), PassTarget(passes[n]);
      if id == None || id.value !in locks || Covered(before, passes[n].uid) then before
      else before + [CardRule(NFC, passes[n].uid, id.value, users, locks, stamp)]
  }

  function WithMobile(rules: seq<Rule>, mobile: seq<Mobile>, stamp: string): seq<Rule> {
    if mobile == [] then rules
    else
      var m := mobile[|mobile| - 1];
      WithMobile(rules, mobile[..|mobile| - 1], stamp)
      + [Rule(BLE, m.publicKeyPem, m.userId, m.userEmail, m.lockIds, stamp)]
  }

  function Shipped(w: Wallet, mobile: seq<Mobile>, users: seq<User>, locks: Locks, stamp: string): seq<Rule> {
    var inventory := InventoryRules(w, w.inventory, users, locks, stamp);
    WithMobile(WithPasses(inventory, w.passes, users, locks, stamp), mobile, stamp)
  }

  /** All that the rule builder reads, and when. */
  datatype Cloud = Cloud(dir: Directory, boundDoorIds: seq<string>, groups: seq<UserGroup>, users: seq<User>,
                         wallet: Wallet, credentials: seq<Credential>, builtAt: int)

  ghost predicate Computed(c: Cloud, locks: Locks) {
    Lists(locks, Access(c.dir, BoundDoors(c.boundDoorIds), c.groups, c.users))
  }

  /** The mobile keys that are shipped. */
  function KeysFor(c: Cloud, locks: Locks): seq<Mobile> {
    Entries(ActiveOf(c.credentials, c.builtAt), c.boundDoorIds, locks)
  }

  function RulesFor(c: Cloud, locks: Locks, stamp: string): seq<Rule> {
    if c.boundDoorIds == [] then [] else Shipped(c.wallet, KeysFor(c, locks), c.users, locks, stamp)
  }

  // ---- The loops ----

  method FindEmail(users: seq<User>, id: string) returns (email: string)
    ensures email == EmailOf(users, id)
  {
    for i := 0 to |users|
      invariant EmailOf(users, id) == EmailOf(users[i..], id)
    {
      if users[i].id == id {
        return users[i].email;
      }
    }
    return "";
  }

  method AppendInventory(w: Wallet, users: seq<User>, locks: Locks, stamp: string) returns (rules: seq<Rule>)
    ensures rules == InventoryRules(w, w.inventory, users, locks, stamp)
  {
    rules := [];
    for i := 0 to |w.inventory|
      invariant rules == InventoryRules(w, w.inventory[..i], users, locks, stamp)
    {
      var item := w.inventory[i];
      assert w.inventory[..i + 1][..i] == w.inventory[..i];
      var id := ItemTarget(w, item);
      if id == None || id.value !in locks {
        continue;
      }
      var email := FindEmail(users, id.value);
      rules := rules + [Rule(NFC, item.uid, id.value, email, locks[id.value], stamp)];
      if item.cardNumber != "" {
        rules := rules + [Rule(CARD, item.cardNumber, id.value, email, locks[id.value], stamp)];
      }
    }
    assert w.inventory[..|w.inventory|] == w.inventory;
  }

  method AppendPasses(before: seq<Rule>, passes: seq<Pass>, users: seq<User>, locks: Locks, stamp: string)
    returns (rules: seq<Rule>)
    ensures rules == WithPasses(before, passes, users, locks, stamp)
  {
    rules := before;
    for i := 0 to |passes|
      invariant rules == WithPasses(before, passes[..i], users, locks, stamp)
    {
      assert passes[..i + 1][..i] == passes[..i];
      var id := PassTarget(passes[i]);
      if id == None || id.value !in locks {
        continue;
      }
      var alreadyCovered := IsCovered(rules, passes[i].uid);
      if alreadyCovered {
        continue;
      }
      var email := FindEmail(users, id.value);
      rules := rules + [Rule(NFC, passes[i].uid, id.value, email, locks[id.value], stamp)];
    }
    assert passes[..|passes|] == passes;
  }

  method IsCovered(rules: seq<Rule>, uid: string) returns (covered: bool)
    ensures covered <==> Covered(rules, uid)
  {
    for i := 0 to |rules|
      invariant forall j :: 0 <= j < i ==> !(rules[j].credentialType == NFC && rules[j].credentialData == uid)
    {
      if rules[i].credentialType == NFC && rules[i].credentialData == uid {
        return true;
      }
    }
    return false;
  }

  /** The list for a gateway; `format` writes a time as the rules carry it. */
  method BuildGatewayAccessRules(c: Cloud, format: int -> string) returns (rules: seq<Rule>)
    ensures exists locks :: Computed(c, locks) && rules == RulesFor(c, locks, format(c.builtAt + 72 * HOUR))
  {
    var stamp := format(c.builtAt + 72 * HOUR);
    var w, users := c.wallet, c.users;
    var userLocks := BuildUserLockAccess(c.dir, c.boundDoorIds, c.groups, users);
    assert Computed(c, userLocks);
    if c.boundDoorIds == [] {
      return [];
    }
    rules := AppendInventory(w, users, userLocks, stamp);
    rules := AppendPasses(rules, w.passes, users, userLocks, stamp);
    var mobile := BuildGatewayCredentialSync(c.credentials, c.boundDoorIds, userLocks, c.builtAt);
    ghost var cards := rules;
    for i := 0 to |mobile|
      invariant rules == WithMobile(cards, mobile[..i], stamp)
    {
      var m := mobile[i];
      assert mobile[..i + 1][..i] == mobile[..i];
      rules := rules + [Rule(BLE, m.publicKeyPem, m.userId, m.userEmail, m.lockIds, stamp)];
    }
    assert mobile[..|mobile|] == mobile;
  }

  // ---- Who a presented card belongs to ----

  /** The first user with access that a card with this folded UID was given to: inventory first, then passes. */
  function ItemHolder(lib: Library, w: Wallet, items: seq<Item>, locks: Locks, data: string): Option<string> {
    if items == [] then None
    else
      var n := |items| - 1;
      var before, id := ItemHolder(lib, w, items[..n], locks, data), ItemTarget(w, items[n]);
      if before.Some? then before
      else if id.Some? && id.value in locks && lib.upper(items[n].uid) == data then id
      else None
  }

  function PassHolder(lib: Library, before: Option<string>, passes: seq<Pass>, locks: Locks,
                      data: string): Option<string>
  {
    if passes == [] then before
    else
      var n := |passes| - 1;
      var earlier, id := PassHolder(lib, before, passes[..n], locks, data), PassTarget(passes[n]);
      if earlier.Some? then earlier
      else if id.Some? && id.value in locks && lib.upper(passes[n].uid) == data then id
      else None
  }

  function Holder(lib: Library, w: Wallet, locks: Locks, data: string): Option<string> {
    PassHolder(lib, ItemHolder(lib, w, w.inventory, locks, data), w.passes, locks, data)
  }

  /** Folding to lower case leaves the three credential types alone. */
  predicate TagsFold(lib: Library) {
    lib.lower(NFC) == NFC && lib.lower(CARD) == CARD && lib.lower(BLE) == BLE
  }

  /** A first match that is the card rule of `holder`. */
  predicate Speaks(m: Option<Rule>, holder: Option<string>, locks: Locks, stamp: string) {
    && (m.Some? <==> holder.Some?)
    && (m.Some? ==> holder.value in locks && m.value.userId == holder.value
                    && m.value.lockIds == locks[holder.value] && m.value.validUntil == stamp)
  }

  lemma FirstMatchAppends(lib: Library, rules: seq<Rule>, r: Rule, kind: string, data: string)
    ensures FirstMatch(lib, rules + [r], kind, data)
         == if FirstMatch(lib, rules, kind, data).Some? then FirstMatch(lib, rules, kind, data)
            else if Matches(lib, r, kind, data) then Some(r) else None
  {
    assert (rules + [r])[..|rules|] == rules;
  }

  lemma {:induction false} InventorySpeaks(lib: Library, w: Wallet, items: seq<Item>, users: seq<User>, locks: Locks,
                                           stamp: string, data: string)
    requires TagsFold(lib)
    ensures Speaks(FirstMatch(lib, InventoryRules(w, items, users, locks, stamp), NFC, data),
                   ItemHolder(lib, w, items, locks, data), locks, stamp)
  {
    if items != [] {
      var n := |items| - 1;
      InventorySpeaks(lib, w, items[..n], users, locks, stamp, data);
      var all := InventoryRules(w, items, users, locks, stamp);
      var before := InventoryRules(w, items[..n], users, locks, stamp);
      var item, id := items[n], ItemTarget(w, items[n]);
      if id.Some? && id.value in locks {
        var nfc := CardRule(NFC, item.uid, id.value, users, locks, stamp);
        FirstMatchAppends(lib, before, nfc, NFC, data);
        if item.cardNumber == "" {
          assert all == before + [nfc];
        } else {
          var card := CardRule(CARD, item.cardNumber, id.value, users, locks, stamp);
          FirstMatchAppends(lib, before + [nfc], card, NFC, data);
          assert all == before + [nfc] + [card];
        }
      } else {
        assert all == before;
      }
    }
  }

  /** Leaving out a pass whose UID is already covered changes no decision. */
  lemma CoveredIsShadowed(lib: Library, rules: seq<Rule>, uid: string)
    requires TagsFold(lib) && Covered(rules, uid)
    ensures FirstMatch(lib, rules, NFC, lib.upper(uid)).Some?
  {
    FirstMatchIsFirst(lib, rules, NFC, lib.upper(uid));
    var r :| r in rules && r.credentialType == NFC && r.credentialData == uid;
    var i :| 0 <= i < |rules| && rules[i] == r;
    assert Matches(lib, rules[i], NFC, lib.upper(uid));
  }

  lemma {:induction false} PassesSpeak(lib: Library, rules: seq<Rule>, before: Option<string>, passes: seq<Pass>,
                                       users: seq<User>, locks: Locks, stamp: string, data: string)
    requires TagsFold(lib) && Speaks(FirstMatch(lib, rules, NFC, data), before, locks, stamp)
    ensures Speaks(FirstMatch(lib, WithPasses(rules, passes, users, locks, stamp), NFC, data),
                   PassHolder(lib, before, passes, locks, data), locks, stamp)
  {
    if passes != [] {
      var n := |passes| - 1;
      PassesSpeak(lib, rules, before, passes[..n], users, locks, stamp, data);
      var sofar, pass, id := WithPasses(rules, passes[..n], users, locks, stamp), passes[n], PassTarget(passes[n]);
      if id.Some? && id.value in locks {
        if Covered(sofar, pass.uid) {
          CoveredIsShadowed(lib, sofar, pass.uid);
        } else {
          FirstMatchAppends(lib, sofar, CardRule(NFC, pass.uid, id.value, users, locks, stamp), NFC, data);
        }
      }
    }
  }

  lemma {:induction false} MobileIsSilent(lib: Library, rules: seq<Rule>, mobile: seq<Mobile>, stamp: string,
                                          data: string)
    requires TagsFold(lib)
    ensures FirstMatch(lib, WithMobile(rules, mobile, stamp), NFC, data) == FirstMatch(lib, rules, NFC, data)
  {
    if mobile != [] {
      var m := mobile[|mobile| - 1];
      MobileIsSilent(lib, rules, mobile[..|mobile| - 1], stamp, data);
      FirstMatchAppends(lib, WithMobile(rules, mobile[..|mobile| - 1], stamp),
                        Rule(BLE, m.publicKeyPem, m.userId, m.userEmail, m.lockIds, stamp), NFC, data);
    }
  }

  lemma ShippedSpeaks(lib: Library, w: Wallet, mobile: seq<Mobile>, users: seq<User>, locks: Locks, stamp: string,
                      data: string)
    requires TagsFold(lib)
    ensures Speaks(FirstMatch(lib, Shipped(w, mobile, users, locks, stamp), NFC, data),
                   Holder(lib, w, locks, data), locks, stamp)
  {
    var inventory := InventoryRules(w, w.inventory, users, locks, stamp);
    InventorySpeaks(lib, w, w.inventory, users, locks, stamp, data);
    PassesSpeak(lib, inventory, ItemHolder(lib, w, w.inventory, locks, data), w.passes, users, locks, stamp, data);
    MobileIsSilent(lib, WithPasses(inventory, w.passes, users, locks, stamp), mobile, stamp, data);
  }

  // ---- The edge refines the cloud ----

  /** The pass is an active one of user `id`. */
  predicate ActivePass(pass: Pass, id: string) {
    pass.targetType == "user" && pass.status == "active" && pass.targetId == id
  }

  /** The card has a UID and is assigned to an active pass of user `id`. */
  predicate AssignedTo(w: Wallet, item: Item, id: string) {
    var pass := w.findPass(item.assignedPassId);
    item.uid != "" && item.assignedPassId != "" && pass.Some? && ActivePass(pass.value, id)
  }

  /** An active card whose folded UID is `data` was given to user `id`. */
  ghost predicate GivenTo(lib: Library, w: Wallet, data: string, id: string) {
    || (exists item :: item in w.inventory && AssignedTo(w, item, id) && lib.upper(item.uid) == data)
    || (exists pass :: pass in w.passes && pass.uid != "" && ActivePass(pass, id) && lib.upper(pass.uid) == data)
  }

  ghost predicate CloudOpens(c: Cloud, id: string, doorId: string) {
    MayOpen(c.dir, BoundDoors(c.boundDoorIds), c.groups, c.users, id, doorId)
  }

  /** The cloud's access relation between cards and doors. */
  ghost predicate Entitled(lib: Library, c: Cloud, data: string, doorId: string) {
    exists id :: GivenTo(lib, c.wallet, data, id) && CloudOpens(c, id, doorId)
  }

  lemma {:induction false} ItemHolderIsGiven(lib: Library, w: Wallet, items: seq<Item>, locks: Locks, data: string)
    ensures var h := ItemHolder(lib, w, items, locks, data);
            && (h.Some? ==> h.value in locks)
            && (h.Some? ==> exists item :: item in items && ItemTarget(w, item) == h && lib.upper(item.uid) == data)
            && (h == None ==> forall item :: item in items && lib.upper(item.uid) == data && ItemTarget(w, item).Some?
                                         ==> ItemTarget(w, item).value !in locks)
  {
    if items != [] {
      var n := |items| - 1;
      ItemHolderIsGiven(lib, w, items[..n], locks, data);
      assert items == items[..n] + [items[n]];
      assert items[n] in items;
    }
  }

  lemma {:induction false} PassHolderIsGiven(lib: Library, before: Option<string>, passes: seq<Pass>, locks: Locks,
                                             data: string)
    ensures var h := PassHolder(lib, before, passes, locks, data);
            && (before.Some? ==> h == before)
            && (h.Some? && before == None ==> h.value in locks)
            && (h.Some? && before == None ==>
                  exists pass :: pass in passes && PassTarget(pass) == h && lib.upper(pass.uid) == data)
            && (h == None ==> forall pass :: pass in passes && lib.upper(pass.uid) == data && PassTarget(pass).Some?
                                         ==> PassTarget(pass).value !in locks)
  {
    if passes != [] {
      var n := |passes| - 1;
      PassHolderIsGiven(lib, before, passes[..n], locks, data);
      assert passes == passes[..n] + [passes[n]];
      assert passes[n] in passes;
    }
  }

  /** The holder has access and was given the card; without a holder, nobody with access was given it. */
  lemma HolderIsGiven(lib: Library, w: Wallet, locks: Locks, data: string)
    ensures var h := Holder(lib, w, locks, data);
            && (h.Some? ==> h.value in locks && GivenTo(lib, w, data, h.value))
            && (h == None ==> forall id :: id in locks ==> !GivenTo(lib, w, data, id))
  {
    ItemHolderIsGiven(lib, w, w.inventory, locks, data);
    PassHolderIsGiven(lib, ItemHolder(lib, w, w.inventory, locks, data), w.passes, locks, data);
  }

  lemma LocksAreRelation(c: Cloud, locks: Locks, id: string, doorId: string)
    requires Computed(c, locks)
    ensures id in locks && doorId in locks[id] ==> CloudOpens(c, id, doorId) && doorId in BoundDoors(c.boundDoorIds)
    ensures DistinctIds(c.users) && CloudOpens(c, id, doorId) ==> id in locks && doorId in locks[id]
  {
    AccessIsRelation(c.dir, BoundDoors(c.boundDoorIds), c.groups, c.users, id, doorId);
  }

  /** The decision on a card, in the cloud's terms. */
  lemma EdgeDecidesByHolder(lib: Library, c: Cloud, locks: Locks, stamp: string, data: string, doorId: string, now: int)
    requires TagsFold(lib) && Computed(c, locks)
    ensures var m, h := FirstMatch(lib, RulesFor(c, locks, stamp), NFC, data), Holder(lib, c.wallet, locks, data);
            && (m.Some? && Ruling(lib, m.value, doorId, now).allow
                ==> h == Some(m.value.userId) && h.value in locks && doorId in locks[h.value])
            && (h.Some? && h.value in locks && doorId in locks[h.value] && InTime(lib, stamp, None, 0, now)
                ==> m.Some? && Ruling(lib, m.value, doorId, now).allow)
  {
    ShippedSpeaks(lib, c.wallet, KeysFor(c, locks), c.users, locks, stamp, data);
    if c.boundDoorIds == [] {
      NothingBound(c.dir, c.groups, c.users);
      assert BoundDoors(c.boundDoorIds) == {};
    }
  }

  /** Neither the lifetime since the latest update nor the expiry in the stamp, if it can be read, has passed. */
  predicate InTime(lib: Library, stamp: string, updatedAt: Option<int>, ttl: int, now: int) {
    && (ttl > 0 && updatedAt.Some? ==> now <= updatedAt.value + ttl)
    && (stamp != "" && lib.parseTime(stamp).Some? ==> now <= lib.parseTime(stamp).value)
  }

  /** Whatever the cards, users and clocks: the edge opens a door to a card only if the cloud's access relation
      does, through the very user it reports, and only a door bound to the gateway. */
  lemma EdgeNeverExceedsCloud(lib: Library, c: Cloud, locks: Locks, stamp: string, updatedAt: Option<int>, ttl: int,
                              kind: string, data: string, doorId: string, now: int)
    requires TagsFold(lib) && Computed(c, locks) && lib.lower(Trim(kind)) == NFC
    ensures var d := Decide(lib, RulesFor(c, locks, stamp), updatedAt, ttl, kind, data, doorId, now);
            d.allow ==> GivenTo(lib, c.wallet, lib.upper(Trim(data)), d.userId) && CloudOpens(c, d.userId, doorId)
                        && doorId in BoundDoors(c.boundDoorIds)
  {
    var uid := lib.upper(Trim(data));
    EdgeDecidesByHolder(lib, c, locks, stamp, uid, doorId, now);
    HolderIsGiven(lib, c.wallet, locks, uid);
    var m := FirstMatch(lib, RulesFor(c, locks, stamp), NFC, uid);
    if m.Some? {
      LocksAreRelation(c, locks, m.value.userId, doorId);
    }
  }

  /** The user whose rule comes first opens every door that any user given a card with this UID opens. */
  ghost predicate FirstOpensAll(lib: Library, c: Cloud, locks: Locks, data: string) {
    var h := Holder(lib, c.wallet, locks, data);
    forall id, doorId :: GivenTo(lib, c.wallet, data, id) && CloudOpens(c, id, doorId)
                     ==> h.Some? && CloudOpens(c, h.value, doorId)
  }

  ghost predicate Agrees(lib: Library, c: Cloud, locks: Locks, stamp: string, updatedAt: Option<int>, ttl: int,
                         kind: string, data: string, doorId: string, now: int)
  {
    Decide(lib, RulesFor(c, locks, stamp), updatedAt, ttl, kind, data, doorId, now).allow
    <==> Entitled(lib, c, lib.upper(Trim(data)), doorId)
  }

  lemma EdgeByFirst(lib: Library, c: Cloud, locks: Locks, stamp: string, updatedAt: Option<int>, ttl: int, kind: string,
                    data: string, doorId: string, now: int)
    requires TagsFold(lib) && Computed(c, locks) && DistinctIds(c.users) && lib.lower(Trim(kind)) == NFC
    requires InTime(lib, stamp, updatedAt, ttl, now)
    ensures var h := Holder(lib, c.wallet, locks, lib.upper(Trim(data)));
            Decide(lib, RulesFor(c, locks, stamp), updatedAt, ttl, kind, data, doorId, now).allow
            <==> (h.Some? && CloudOpens(c, h.value, doorId))
  {
    var uid := lib.upper(Trim(data));
    var h := Holder(lib, c.wallet, locks, uid);
    EdgeDecidesByHolder(lib, c, locks, stamp, uid, doorId, now);
    if h.Some? {
      LocksAreRelation(c, locks, h.value, doorId);
    }
  }

  /** While cache and rules are fresh, the edge agrees with the cloud on every door exactly when the first user
      with this UID opens all that later ones open; the first-match scan hides the later ones. */
  lemma EdgeIsCloud(lib: Library, c: Cloud, locks: Locks, stamp: string, updatedAt: Option<int>, ttl: int, kind: string,
                    data: string, now: int)
    requires TagsFold(lib) && Computed(c, locks) && DistinctIds(c.users) && lib.lower(Trim(kind)) == NFC
    requires InTime(lib, stamp, updatedAt, ttl, now)
    ensures (forall doorId :: Agrees(lib, c, locks, stamp, updatedAt, ttl, kind, data, doorId, now))
        <==> FirstOpensAll(lib, c, locks, lib.upper(Trim(data)))
  {
    var uid := lib.upper(Trim(data));
    var h := Holder(lib, c.wallet, locks, uid);
    HolderIsGiven(lib, c.wallet, locks, uid);
    forall doorId
      ensures Decide(lib, RulesFor(c, locks, stamp), updatedAt, ttl, kind, data, doorId, now).allow
              <==> (h.Some? && CloudOpens(c, h.value, doorId))
    {
      EdgeByFirst(lib, c, locks, stamp, updatedAt, ttl, kind, data, doorId, now);
    }
    if forall doorId :: Agrees(lib, c, locks, stamp, updatedAt, ttl, kind, data, doorId, now) {
      forall id, doorId | GivenTo(lib, c.wallet, uid, id) && CloudOpens(c, id, doorId)
        ensures h.Some? && CloudOpens(c, h.value, doorId)
      {
        assert Agrees(lib, c, locks, stamp, updatedAt, ttl, kind, data, doorId, now);
      }
    }
  }

  /** Two doors in two buildings, and two users with a role in one building each and passes with the same UID; the
      first of them has a phone too. */
  function SharedCard(): Cloud {
    Cloud(Directory([], [Door("lab", "east"), Door("store", "west")],
                    [RoleAssignment("User", "a", "Place", "east"), RoleAssignment("User", "b", "Place", "west")]),
          ["lab", "store"], [], [User("a", "", []), User("b", "", [])],
          Wallet([], _ => None, [Pass("04AA", "user", "a", "active"), Pass("04AA", "user", "b", "active")]),
          [Credential("a", "", "KEY-A", "active", 1)], 0)
  }

  lemma SharedCardRoles(dir: Directory, a: User, b: User)
    requires dir == SharedCard().dir && [a, b] == SharedCard().users
    ensures ByRole(dir, dir.roles, a, "lab") && !ByRole(dir, dir.roles, a, "store")
    ensures ByRole(dir, dir.roles, b, "store")
  {
    var ra, rb, lab, store := dir.roles[0], dir.roles[1], dir.doors[0], dir.doors[1];
    assert [a, b][0] == a && [a, b][1] == b;
    assert "lab"[0] != "store"[0] && "east"[0] != "west"[0] && "a"[0] != "b"[0];
    assert ra in dir.roles && rb in dir.roles && lab in dir.doors && store in dir.doors;
    assert Holds(a, ra) && InScope(dir.doors, ra, "lab") && !InScope(dir.doors, ra, "store");
    assert Holds(b, rb) && InScope(dir.doors, rb, "store") && !Holds(a, rb);
  }

  lemma SharedCardBound()
    ensures var bound := BoundDoors(SharedCard().boundDoorIds); "lab" in bound && "store" in bound
  {
    TrimLeaves("lab");
    TrimLeaves("store");
    assert "lab" in SharedCard().boundDoorIds && "store" in SharedCard().boundDoorIds;
  }

  lemma SharedCardDoors()
    ensures var c := SharedCard();
            && DistinctIds(c.users)
            && CloudOpens(c, "a", "lab") && !CloudOpens(c, "a", "store") && CloudOpens(c, "b", "store")
  {
    hide ByRole, InScope, Holds, BoundDoors;
    var c := SharedCard();
    var a, b := c.users[0], c.users[1];
    SharedCardRoles(c.dir, a, b);
    SharedCardBound();
    assert "a"[0] != "b"[0];
    assert a in c.users && b in c.users;
  }

  /** The second holder's door stays shut for the card, although the cloud's relation opens it. */
  lemma SharedCardExample(lib: Library, locks: Locks, stamp: string, updatedAt: Option<int>, ttl: int, kind: string,
                          data: string, now: int)
    requires TagsFold(lib) && Computed(SharedCard(), locks) && lib.lower(Trim(kind)) == NFC
    requires lib.upper("04AA") == lib.upper(Trim(data)) == "04AA"
    requires InTime(lib, stamp, updatedAt, ttl, now)
    ensures Entitled(lib, SharedCard(), "04AA", "store") && !FirstOpensAll(lib, SharedCard(), locks, "04AA")
    ensures !Decide(lib, RulesFor(SharedCard(), locks, stamp), updatedAt, ttl, kind, data, "store", now).allow
  {
    hide CloudOpens, DistinctIds, Computed, Decide, InTime, SharedCard, GivenTo, Holder;
    var c := SharedCard();
    SharedCardDoors();
    LocksAreRelation(c, locks, "a", "lab");
    FirstHolder(lib, c.wallet, locks);
    SharedCardGiven(lib);
    EdgeByFirst(lib, c, locks, stamp, updatedAt, ttl, kind, data, "store", now);
  }

  lemma SharedCardGiven(lib: Library)
    requires lib.upper("04AA") == "04AA"
    ensures GivenTo(lib, SharedCard().wallet, "04AA", "b")
  {
    assert SharedCard().wallet.passes[1] in SharedCard().wallet.passes;
  }

  lemma FirstHolder(lib: Library, w: Wallet, locks: Locks)
    requires w == SharedCard().wallet && "a" in locks && lib.upper("04AA") == "04AA"
    ensures Holder(lib, w, locks, "04AA") == Some("a")
  {
    var none, one, two := w.passes[..0], w.passes[..1], w.passes;
    assert none == [] && one[..0] == none && two[..1] == one;
    assert PassHolder(lib, None, none, locks, "04AA") == None;
    assert PassHolder(lib, None, one, locks, "04AA") == Some("a");
  }

  /** Folded UIDs that each belong to one user. */
  ghost predicate DistinctCards(lib: Library, w: Wallet) {
    forall data, a, b :: GivenTo(lib, w, data, a) && GivenTo(lib, w, data, b) ==> a == b
  }

  /** With distinct cards the edge decides exactly as the cloud's access relation. */
  lemma DistinctCardsAgree(lib: Library, c: Cloud, locks: Locks, stamp: string, updatedAt: Option<int>, ttl: int,
                           kind: string, data: string, doorId: string, now: int)
    requires TagsFold(lib) && Computed(c, locks) && DistinctIds(c.users) && lib.lower(Trim(kind)) == NFC
    requires InTime(lib, stamp, updatedAt, ttl, now)
    requires DistinctCards(lib, c.wallet)
    ensures Agrees(lib, c, locks, stamp, updatedAt, ttl, kind, data, doorId, now)
  {
    var uid := lib.upper(Trim(data));
    HolderIsGiven(lib, c.wallet, locks, uid);
    EdgeByFirst(lib, c, locks, stamp, updatedAt, ttl, kind, data, doorId, now);
    forall id | GivenTo(lib, c.wallet, uid, id) && CloudOpens(c, id, doorId)
      ensures Holder(lib, c.wallet, locks, uid) == Some(id)
    {
      LocksAreRelation(c, locks, id, doorId);
    }
  }

  /** End to end: after any run of updates that ends with a push of the shipped list, the agent's decisions on
      cards are the cloud's, until the cache lifetime or the rules' own expiry passes. */
  lemma PushedRulesAgree(lib: Library, c: Cloud, locks: Locks, stamp: string, earlier: seq<Update>, version: string,
                         at: int, ttl: int, kind: string, data: string, doorId: string, now: int)
    requires TagsFold(lib) && Computed(c, locks) && DistinctIds(c.users) && DistinctCards(lib, c.wallet)
    requires lib.lower(Trim(kind)) == NFC
    requires ttl > 0 ==> now <= at + ttl
    requires stamp != "" && lib.parseTime(stamp).Some? ==> now <= lib.parseTime(stamp).value
    ensures var updates := earlier + [Full(RulesFor(c, locks, stamp), version, at)];
            DecideAfter(lib, updates, ttl, kind, data, doorId, now).allow
            <==> Entitled(lib, c, lib.upper(Trim(data)), doorId)
  {
    DistinctCardsAgree(lib, c, locks, stamp, Some(at), ttl, kind, data, doorId, now);
  }

  // ---- The lock lists ----

  /** The user was given a card with this number, spelled as it is in the inventory. */
  ghost predicate NumberOf(w: Wallet, number: string, id: string) {
    number != "" && exists item :: item in w.inventory && AssignedTo(w, item, id) && item.cardNumber == number
  }

  /** Where a shipped rule comes from: a user with access, or a mobile credential. */
  ghost predicate Origin(w: Wallet, mobile: seq<Mobile>, locks: Locks, stamp: string, r: Rule) {
    && r.credentialType in {NFC, CARD, BLE} && r.validUntil == stamp
    && (r.credentialType != BLE ==> r.userId in locks && r.lockIds == locks[r.userId])
    && (r.credentialType == CARD ==> NumberOf(w, r.credentialData, r.userId))
    && (r.credentialType == BLE ==> Mobile(r.credentialData, r.userId, r.userEmail, r.lockIds) in mobile)
  }

  lemma ItemOrigin(w: Wallet, mobile: seq<Mobile>, item: Item, users: seq<User>, locks: Locks, stamp: string)
    requires item in w.inventory
    ensures forall r :: r in ItemRules(w, item, users, locks, stamp) ==> Origin(w, mobile, locks, stamp, r)
  {
    assert |NFC| == 7 && |CARD| == 11 && |BLE| == 13;
  }

  lemma {:induction false} InventoryOrigin(w: Wallet, mobile: seq<Mobile>, items: seq<Item>, users: seq<User>,
                                           locks: Locks, stamp: string)
    requires forall item :: item in items ==> item in w.inventory
    ensures forall r :: r in InventoryRules(w, items, users, locks, stamp) ==> Origin(w, mobile, locks, stamp, r)
  {
    hide Origin, ItemRules;
    if items != [] {
      InventoryOrigin(w, mobile, items[..|items| - 1], users, locks, stamp);
      ItemOrigin(w, mobile, items[|items| - 1], users, locks, stamp);
    }
  }

  lemma {:induction false} PassesOrigin(w: Wallet, mobile: seq<Mobile>, rules: seq<Rule>, passes: seq<Pass>,
                                        users: seq<User>, locks: Locks, stamp: string)
    requires forall r :: r in rules ==> Origin(w, mobile, locks, stamp, r)
    ensures forall r :: r in WithPasses(rules, passes, users, locks, stamp) ==> Origin(w, mobile, locks, stamp, r)
  {
    if passes != [] {
      PassesOrigin(w, mobile, rules, passes[..|passes| - 1], users, locks, stamp);
      assert |NFC| == 7 && |CARD| == 11 && |BLE| == 13;
    }
  }

  lemma {:induction false} MobileOrigin(w: Wallet, all: seq<Mobile>, rules: seq<Rule>, mobile: seq<Mobile>,
                                        locks: Locks, stamp: string)
    requires forall m :: m in mobile ==> m in all
    requires forall r :: r in rules ==> Origin(w, all, locks, stamp, r)
    ensures forall r :: r in WithMobile(rules, mobile, stamp) ==> Origin(w, all, locks, stamp, r)
  {
    if mobile != [] {
      MobileOrigin(w, all, rules, mobile[..|mobile| - 1], locks, stamp);
      assert mobile[|mobile| - 1] in mobile;
      assert |NFC| == 7 && |CARD| == 11 && |BLE| == 13;
    }
  }

  lemma ShippedOrigin(c: Cloud, locks: Locks, stamp: string)
    ensures forall r :: r in RulesFor(c, locks, stamp) ==> Origin(c.wallet, KeysFor(c, locks), locks, stamp, r)
  {
    var inventory, keys := InventoryRules(c.wallet, c.wallet.inventory, c.users, locks, stamp), KeysFor(c, locks);
    hide Origin, KeysFor;
    InventoryOrigin(c.wallet, keys, c.wallet.inventory, c.users, locks, stamp);
    PassesOrigin(c.wallet, keys, inventory, c.wallet.passes, c.users, locks, stamp);
    MobileOrigin(c.wallet, keys, WithPasses(inventory, c.wallet.passes, c.users, locks, stamp), keys, locks, stamp);
  }

  /** Every card rule lists its locks strictly sorted, all of them bound to the gateway and open to its user. */
  lemma CardRulesListBoundDoors(c: Cloud, locks: Locks, stamp: string, r: Rule)
    requires Computed(c, locks) && r in RulesFor(c, locks, stamp) && r.credentialType != BLE
    ensures StrictlySorted(r.lockIds)
    ensures forall d :: d in r.lockIds ==> d in BoundDoors(c.boundDoorIds) && CloudOpens(c, r.userId, d)
  {
    ShippedOrigin(c, locks, stamp);
    assert Origin(c.wallet, KeysFor(c, locks), locks, stamp, r);
    forall d | d in r.lockIds
      ensures d in BoundDoors(c.boundDoorIds) && CloudOpens(c, r.userId, d)
    {
      LocksAreRelation(c, locks, r.userId, d);
    }
  }

  /** The key belongs to an active credential of the user. */
  ghost predicate KeyOf(c: Cloud, key: string, id: string) {
    exists cred :: cred in c.credentials && cred.status == "active" && cred.expiresAt > c.builtAt
                    && cred.userId == id && cred.publicKeyPem == key
  }

  lemma {:induction false} MobileShipped(rules: seq<Rule>, mobile: seq<Mobile>, stamp: string, m: Mobile)
    requires m in mobile
    ensures Rule(BLE, m.publicKeyPem, m.userId, m.userEmail, m.lockIds, stamp) in WithMobile(rules, mobile, stamp)
  {
    var n := |mobile| - 1;
    if m != mobile[n] {
      assert m in mobile[..n];
      MobileShipped(rules, mobile[..n], stamp, m);
    }
  }

  /** Every key rule belongs to an active credential and names at least one lock; its locks are bound to the gateway
      and open to its user, and with distinct user ids they are all of these. */
  lemma KeyRulesListOpenDoors(c: Cloud, locks: Locks, stamp: string, r: Rule)
    requires Computed(c, locks) && r in RulesFor(c, locks, stamp) && r.credentialType == BLE
    ensures KeyOf(c, r.credentialData, r.userId) && r.lockIds != [] && r.validUntil == stamp
    ensures forall d :: d in r.lockIds ==>
              d in c.boundDoorIds && d in BoundDoors(c.boundDoorIds) && CloudOpens(c, r.userId, d)
    ensures DistinctIds(c.users) ==>
              forall d :: d in c.boundDoorIds && CloudOpens(c, r.userId, d) ==> d in r.lockIds
  {
    var m := Mobile(r.credentialData, r.userId, r.userEmail, r.lockIds);
    hide Computed, CloudOpens, DistinctIds, BoundDoors, Matched, RulesFor;
    ShippedOrigin(c, locks, stamp);
    assert Origin(c.wallet, KeysFor(c, locks), locks, stamp, r);
    SyncHandsOver(c.credentials, c.boundDoorIds, locks, c.builtAt, m);
    forall d
      ensures d in r.lockIds ==>
                d in c.boundDoorIds && d in BoundDoors(c.boundDoorIds) && CloudOpens(c, r.userId, d)
      ensures DistinctIds(c.users) && d in c.boundDoorIds && CloudOpens(c, r.userId, d) ==> d in r.lockIds
    {
      MatchedAre(c.boundDoorIds, locks[r.userId], d);
      LocksAreRelation(c, locks, r.userId, d);
    }
  }

  /** Which keys are shipped: those of the active credentials whose user may open at least one of the gateway's
      doors. */
  lemma KeyIsShipped(c: Cloud, locks: Locks, stamp: string, key: string, id: string)
    requires Computed(c, locks) && DistinctIds(c.users)
    ensures (exists r :: r in RulesFor(c, locks, stamp)
                      && r.credentialType == BLE && r.credentialData == key && r.userId == id)
       <==> KeyOf(c, key, id) && exists d :: d in c.boundDoorIds && CloudOpens(c, id, d)
  {
    if r :| r in RulesFor(c, locks, stamp) && r.credentialType == BLE && r.credentialData == key && r.userId == id {
      KeyRulesListOpenDoors(c, locks, stamp, r);
      assert r.lockIds[0] in r.lockIds;
    }
    if KeyOf(c, key, id) && exists d :: d in c.boundDoorIds && CloudOpens(c, id, d) {
      var d :| d in c.boundDoorIds && CloudOpens(c, id, d);
      var r := ShipKey(c, locks, stamp, key, id, d);
    }
  }

  lemma ShipKey(c: Cloud, locks: Locks, stamp: string, key: string, id: string, d: string) returns (r: Rule)
    requires Computed(c, locks) && DistinctIds(c.users) && KeyOf(c, key, id)
    requires d in c.boundDoorIds && CloudOpens(c, id, d)
    ensures r in RulesFor(c, locks, stamp) && r.credentialType == BLE && r.credentialData == key && r.userId == id
  {
    LocksAreRelation(c, locks, id, d);
    MatchedAre(c.boundDoorIds, locks[id], d);
    hide Computed, CloudOpens, DistinctIds, Matched;
    var cred :| cred in c.credentials && cred.status == "active" && cred.expiresAt > c.builtAt
                    && cred.userId == id && cred.publicKeyPem == key;
    var m := Mobile(key, id, cred.userEmail, Matched(c.boundDoorIds, locks[id]));
    SyncHandsOver(c.credentials, c.boundDoorIds, locks, c.builtAt, m);
    r := Rule(BLE, m.publicKeyPem, m.userId, m.userEmail, m.lockIds, stamp);
    var inventory := InventoryRules(c.wallet, c.wallet.inventory, c.users, locks, stamp);
    MobileShipped(WithPasses(inventory, c.wallet.passes, c.users, locks, stamp), KeysFor(c, locks), stamp, m);
  }

  /** The same bound for the other two kinds of rule: what opens to a number or a key is a bound door that the
      cloud's relation gives to a user who was issued that number or key. */
  lemma OtherKindsNeverExceedCloud(lib: Library, c: Cloud, locks: Locks, stamp: string, updatedAt: Option<int>,
                                   ttl: int, kind: string, data: string, doorId: string, now: int)
    requires TagsFold(lib) && Computed(c, locks) && lib.lower(Trim(kind)) in {CARD, BLE}
    ensures var d := Decide(lib, RulesFor(c, locks, stamp), updatedAt, ttl, kind, data, doorId, now);
            d.allow ==> Issued(lib, c, lib.lower(Trim(kind)), lib.upper(Trim(data)), d.userId)
                        && CloudOpens(c, d.userId, doorId) && doorId in BoundDoors(c.boundDoorIds)
  {
    var tag, folded, rules := lib.lower(Trim(kind)), lib.upper(Trim(data)), RulesFor(c, locks, stamp);
    var m := FirstMatch(lib, rules, tag, folded);
    FirstMatchIsFirst(lib, rules, tag, folded);
    if m.Some? {
      assert |NFC| == 7 && |CARD| == 11 && |BLE| == 13;
      ShippedOrigin(c, locks, stamp);
      assert m.value in rules;
      if tag == BLE {
        KeyRulesListOpenDoors(c, locks, stamp, m.value);
      } else {
        LocksAreRelation(c, locks, m.value.userId, doorId);
      }
    }
  }

  /** A number or key that folds to `data` was issued to the user. */
  ghost predicate Issued(lib: Library, c: Cloud, tag: string, data: string, id: string) {
    if tag == CARD then exists number :: NumberOf(c.wallet, number, id) && lib.upper(number) == data
    else exists key :: KeyOf(c, key, id) && lib.upper(key) == data
  }

  lemma {:induction false} InventoryHasNumber(w: Wallet, items: seq<Item>, users: seq<User>, locks: Locks,
                                              stamp: string, item: Item, id: string)
    requires item in items && AssignedTo(w, item, id) && id in locks && item.cardNumber != ""
    ensures CardRule(CARD, item.cardNumber, id, users, locks, stamp) in InventoryRules(w, items, users, locks, stamp)
  {
    hide AssignedTo, ItemRules;
    var n := |items| - 1;
    if item in items[..n] {
      InventoryHasNumber(w, items[..n], users, locks, stamp, item, id);
    } else {
      ItemHasNumber(w, users, locks, stamp, item, id);
    }
  }

  lemma ItemHasNumber(w: Wallet, users: seq<User>, locks: Locks, stamp: string, item: Item, id: string)
    requires AssignedTo(w, item, id) && id in locks && item.cardNumber != ""
    ensures CardRule(CARD, item.cardNumber, id, users, locks, stamp) in ItemRules(w, item, users, locks, stamp)
  {
  }

  lemma {:induction false} PassesKeep(rules: seq<Rule>, passes: seq<Pass>, users: seq<User>, locks: Locks,
                                      stamp: string, r: Rule)
    requires r in rules
    ensures r in WithPasses(rules, passes, users, locks, stamp)
  {
    if passes != [] {
      PassesKeep(rules, passes[..|passes| - 1], users, locks, stamp, r);
    }
  }

  lemma {:induction false} MobileKeeps(rules: seq<Rule>, mobile: seq<Mobile>, stamp: string, r: Rule)
    requires r in rules
    ensures r in WithMobile(rules, mobile, stamp)
  {
    if mobile != [] {
      MobileKeeps(rules, mobile[..|mobile| - 1], stamp, r);
    }
  }

  lemma ShipNumber(c: Cloud, locks: Locks, stamp: string, number: string, id: string) returns (r: Rule)
    requires NumberOf(c.wallet, number, id) && id in locks && c.boundDoorIds != []
    ensures r in RulesFor(c, locks, stamp)
    ensures r.credentialType == CARD && r.credentialData == number && r.userId == id && r.lockIds == locks[id]
  {
    hide AssignedTo, KeysFor;
    var w, users := c.wallet, c.users;
    var item :| item in w.inventory && AssignedTo(w, item, id) && item.cardNumber == number;
    r := CardRule(CARD, number, id, users, locks, stamp);
    InventoryHasNumber(w, w.inventory, users, locks, stamp, item, id);
    var inventory := InventoryRules(w, w.inventory, users, locks, stamp);
    PassesKeep(inventory, w.passes, users, locks, stamp, r);
    MobileKeeps(WithPasses(inventory, w.passes, users, locks, stamp), KeysFor(c, locks), stamp, r);
  }

  /** Folded card numbers that each belong to one user. */
  ghost predicate DistinctNumbers(lib: Library, w: Wallet) {
    forall one, other, a, b :: NumberOf(w, one, a) && NumberOf(w, other, b) && lib.upper(one) == lib.upper(other)
                           ==> a == b
  }

  /** Card numbers decide like UIDs: while in time, the edge opens a door to a number exactly when the number was given
      to a user to whom the cloud's relation opens it. */
  lemma NumbersAgree(lib: Library, c: Cloud, locks: Locks, stamp: string, updatedAt: Option<int>, ttl: int,
                     kind: string, data: string, doorId: string, now: int)
    requires TagsFold(lib) && Computed(c, locks) && DistinctIds(c.users) && lib.lower(Trim(kind)) == CARD
    requires InTime(lib, stamp, updatedAt, ttl, now) && DistinctNumbers(lib, c.wallet)
    ensures Decide(lib, RulesFor(c, locks, stamp), updatedAt, ttl, kind, data, doorId, now).allow
       <==> exists number, id :: NumberOf(c.wallet, number, id) && lib.upper(number) == lib.upper(Trim(data))
                                 && CloudOpens(c, id, doorId)
  {
    hide NumberOf, CloudOpens, Computed, DistinctIds, BoundDoors, KeysFor;
    OtherKindsNeverExceedCloud(lib, c, locks, stamp, updatedAt, ttl, kind, data, doorId, now);
    var folded, rules := lib.upper(Trim(data)), RulesFor(c, locks, stamp);
    if number, id :| NumberOf(c.wallet, number, id) && lib.upper(number) == folded && CloudOpens(c, id, doorId) {
      OpensSomething(c, locks, id, doorId);
      var r := ShipNumber(c, locks, stamp, number, id);
      NumberDecides(lib, c, locks, stamp, folded, r);
    }
  }

  lemma OpensSomething(c: Cloud, locks: Locks, id: string, doorId: string)
    requires Computed(c, locks) && DistinctIds(c.users) && CloudOpens(c, id, doorId)
    ensures id in locks && doorId in locks[id] && c.boundDoorIds != []
  {
    LocksAreRelation(c, locks, id, doorId);
  }

  /** With distinct numbers the rule that a number reaches lists the doors of the number's user. */
  lemma NumberDecides(lib: Library, c: Cloud, locks: Locks, stamp: string, folded: string, r: Rule)
    requires TagsFold(lib) && DistinctNumbers(lib, c.wallet) && r in RulesFor(c, locks, stamp)
    requires r.credentialType == CARD && lib.upper(r.credentialData) == folded
    ensures var m := FirstMatch(lib, RulesFor(c, locks, stamp), CARD, folded);
            m.Some? && r.userId in locks && m.value.lockIds == locks[r.userId] && m.value.validUntil == stamp
  {
    var rules := RulesFor(c, locks, stamp);
    FirstMatchIsFirst(lib, rules, CARD, folded);
    ShippedOrigin(c, locks, stamp);
    var i :| 0 <= i < |rules| && rules[i] == r;
    assert Matches(lib, rules[i], CARD, folded);
    var m := FirstMatch(lib, rules, CARD, folded).value;
    assert |NFC| == 7 && |CARD| == 11 && |BLE| == 13;
    assert m in rules && m.credentialType == CARD;
  }

  /** A credential of any other kind never opens a door. */
  lemma NoOtherKind(lib: Library, c: Cloud, locks: Locks, stamp: string, updatedAt: Option<int>, ttl: int, kind: string,
                    data: string, doorId: string, now: int)
    requires TagsFold(lib) && lib.lower(Trim(kind)) !in {NFC, CARD, BLE}
    ensures !Decide(lib, RulesFor(c, locks, stamp), updatedAt, ttl, kind, data, doorId, now).allow
  {
    var tag, folded, rules := lib.lower(Trim(kind)), lib.upper(Trim(data)), RulesFor(c, locks, stamp);
    FirstMatchIsFirst(lib, rules, tag, folded);
    ShippedOrigin(c, locks, stamp);
    if FirstMatch(lib, rules, tag, folded).Some? {
      assert FirstMatch(lib, rules, tag, folded).value in rules;
    }
  }

  /** Rules carry their end, and times are written so that they read back, up to the second. So a list opens nothing
      from three days after it was made, whatever the agent's own lifetime for it: that bounds how late a revocation
      takes effect at a gateway that has lost its connection. */
  lemma NothingOpensAfterThreeDays(lib: Library, c: Cloud, locks: Locks, format: int -> string, updatedAt: Option<int>,
                                   ttl: int, kind: string, data: string, doorId: string, now: int)
    requires forall t :: format(t) != "" && lib.parseTime(format(t)).Some? && lib.parseTime(format(t)).value <= t
    requires now > c.builtAt + 72 * 3600 * 1_000_000_000
    ensures var rules := RulesFor(c, locks, format(c.builtAt + 72 * HOUR));
            !Decide(lib, rules, updatedAt, ttl, kind, data, doorId, now).allow
  {
    var stamp := format(c.builtAt + 72 * HOUR);
    var rules := RulesFor(c, locks, stamp);
    var tag, folded := lib.lower(Trim(kind)), lib.upper(Trim(data));
    FirstMatchIsFirst(lib, rules, tag, folded);
    ShippedOrigin(c, locks, stamp);
    if FirstMatch(lib, rules, tag, folded).Some? {
      assert FirstMatch(lib, rules, tag, folded).value in rules;
    }
  }

  // ---- The address in a rule ----

  /** The address of the first user with this id, or none. */
  ghost predicate AddressOf(users: seq<User>, id: string, email: string) {
    || (email == "" && forall u :: u in users ==> u.id != id)
    || (exists i :: IsAddress(users, i, id, email))
  }

  ghost predicate IsAddress(users: seq<User>, i: int, id: string, email: string) {
    && 0 <= i < |users| && users[i].id == id && users[i].email == email
    && forall j :: 0 <= j < i ==> users[j].id != id
  }

  lemma {:induction false} EmailIsAddress(users: seq<User>, id: string)
    ensures AddressOf(users, id, EmailOf(users, id))
  {
    if users != [] && users[0].id == id {
      assert IsAddress(users, 0, id, EmailOf(users, id));
    } else if users != [] {
      EmailIsAddress(users[1..], id);
      var email := EmailOf(users[1..], id);
      if i :| IsAddress(users[1..], i, id, email) {
        assert users[i + 1] == users[1..][i];
        assert forall j :: 1 <= j < i + 1 ==> users[j] == users[1..][j - 1];
        assert IsAddress(users, i + 1, id, email);
      } else {
        assert forall u :: u in users ==> u == users[0] || u in users[1..];
      }
    }
  }

  /** Every card rule carries the address of its user. */
  ghost predicate Addressed(users: seq<User>, r: Rule) {
    r.credentialType != BLE ==> AddressOf(users, r.userId, r.userEmail)
  }

  lemma {:induction false} InventoryAddressed(w: Wallet, items: seq<Item>, users: seq<User>, locks: Locks,
                                              stamp: string)
    ensures forall r :: r in InventoryRules(w, items, users, locks, stamp) ==> Addressed(users, r)
  {
    hide AddressOf;
    if items != [] {
      var n := |items| - 1;
      InventoryAddressed(w, items[..n], users, locks, stamp);
      var id := ItemTarget(w, items[n]);
      if id.Some? {
        EmailIsAddress(users, id.value);
      }
    }
  }

  lemma {:induction false} PassesAddressed(rules: seq<Rule>, passes: seq<Pass>, users: seq<User>, locks: Locks,
                                           stamp: string)
    requires forall r :: r in rules ==> Addressed(users, r)
    ensures forall r :: r in WithPasses(rules, passes, users, locks, stamp) ==> Addressed(users, r)
  {
    hide AddressOf, Covered;
    if passes != [] {
      var n := |passes| - 1;
      PassesAddressed(rules, passes[..n], users, locks, stamp);
      var id := PassTarget(passes[n]);
      if id.Some? {
        EmailIsAddress(users, id.value);
      }
    }
  }

  lemma {:induction false} MobileAddressed(rules: seq<Rule>, mobile: seq<Mobile>, users: seq<User>, stamp: string)
    requires forall r :: r in rules ==> Addressed(users, r)
    ensures forall r :: r in WithMobile(rules, mobile, stamp) ==> Addressed(users, r)
  {
    hide AddressOf;
    if mobile != [] {
      MobileAddressed(rules, mobile[..|mobile| - 1], users, stamp);
    }
  }

  /** A decision on a shipped list names a user and that user's address: of the first user with the id for a card, of an
      active credential for a key. */
  lemma DecisionAddressed(lib: Library, c: Cloud, locks: Locks, stamp: string, r: Rule)
    requires r in RulesFor(c, locks, stamp)
    ensures if r.credentialType != BLE then AddressOf(c.users, r.userId, r.userEmail)
            else exists cred :: cred in c.credentials && cred.userId == r.userId && cred.userEmail == r.userEmail
                             && cred.publicKeyPem == r.credentialData
  {
    var inventory := InventoryRules(c.wallet, c.wallet.inventory, c.users, locks, stamp);
    hide AddressOf, KeysFor;
    InventoryAddressed(c.wallet, c.wallet.inventory, c.users, locks, stamp);
    PassesAddressed(inventory, c.wallet.passes, c.users, locks, stamp);
    MobileAddressed(WithPasses(inventory, c.wallet.passes, c.users, locks, stamp), KeysFor(c, locks), c.users, stamp);
    assert Addressed(c.users, r);
    if r.credentialType == BLE {
      ShippedOrigin(c, locks, stamp);
      assert Origin(c.wallet, KeysFor(c, locks), locks, stamp, r);
      KeyComesFrom(c, locks, Mobile(r.credentialData, r.userId, r.userEmail, r.lockIds));
    }
  }

  lemma KeyComesFrom(c: Cloud, locks: Locks, m: Mobile)
    requires m in KeysFor(c, locks)
    ensures exists cred :: cred in c.credentials && cred.userId == m.userId && cred.userEmail == m.userEmail
                        && cred.publicKeyPem == m.publicKeyPem
  {
    SyncHandsOver(c.credentials, c.boundDoorIds, locks, c.builtAt, m);
  }
}
