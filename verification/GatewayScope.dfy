/** Which users and user groups of a tenant are considered for a gateway: those of no building, and those of a building
    in which the gateway has a door. */
module GatewayScope {
  import opened SortedStrings
  import opened Text
  import opened UserLocks

  datatype Account = Account(user: User, status: string, buildingId: string)

  /** The buildings of the bound doors. */
  function BuildingsOf(doors: seq<Door>, bound: set<string>): set<string> {
    set door | door in doors && Trim(door.id) in bound && Trim(door.buildingId) != "" :: Trim(door.buildingId)
  }

  predicate InBuildings(buildingId: string, buildings: set<string>) {
    Trim(buildingId) == "" || Trim(buildingId) in buildings
  }

  function ScopedGroups(groups: seq<UserGroup>, buildings: set<string>): seq<UserGroup> {
    if groups == [] then []
    else
      var n := |groups| - 1;
      ScopedGroups(groups[..n], buildings) + if InBuildings(groups[n].buildingId, buildings) then [groups[n]] else []
  }

  function IdsOf(groups: seq<UserGroup>): set<string> {
    set ug | ug in groups :: ug.id
  }

  /** Without any group to allow, all are kept. */
  predicate Keeps(id: string, allowed: set<string>) {
    id != "" && (allowed == {} || id in allowed)
  }

  function KeptIds(ids: seq<string>, allowed: set<string>): seq<string> {
    if ids == [] then []
    else
      var kept, next := KeptIds(ids[..|ids| - 1], allowed), Trim(ids[|ids| - 1]);
      if Keeps(next, allowed) && next !in kept then kept + [next] else kept
  }

  function ScopedUser(a: Account, allowed: set<string>): User {
    a.user.(groupIds := KeptIds(a.user.groupIds, allowed))
  }

  predicate Considered(lower: string -> string, a: Account, buildings: set<string>) {
    lower(Trim(a.status)) == "active" && InBuildings(a.buildingId, buildings)
  }

  function ScopedUsers(lower: string -> string, accounts: seq<Account>, buildings: set<string>,
                       allowed: set<string>): seq<User>
  {
    if accounts == [] then []
    else
      var n := |accounts| - 1;
      ScopedUsers(lower, accounts[..n], buildings, allowed)
      + if Considered(lower, accounts[n], buildings) then [ScopedUser(accounts[n], allowed)] else []
  }

  // ---- The loops ----

  method CollectBuildings(doors: seq<Door>, bound: set<string>) returns (buildings: set<string>)
    ensures buildings == BuildingsOf(doors, bound)
  {
    buildings := {};
    for i := 0 to |doors|
      invariant buildings == BuildingsOf(doors[..i], bound)
    {
      assert doors[..i + 1] == doors[..i] + [doors[i]];
      if Trim(doors[i].id) !in bound {
        continue;
      }
      if Trim(doors[i].buildingId) != "" {
        buildings := buildings + {Trim(doors[i].buildingId)};
      }
    }
    assert doors[..|doors|] == doors;
  }

  method ConfigUserGroups(groups: seq<UserGroup>, buildings: set<string>) returns (items: seq<UserGroup>)
    ensures items == ScopedGroups(groups, buildings)
  {
    items := [];
    for i := 0 to |groups|
      invariant items == ScopedGroups(groups[..i], buildings)
    {
      assert groups[..i + 1][..i] == groups[..i];
      var buildingId := Trim(groups[i].buildingId);
      if buildingId != "" {
        if buildingId !in buildings {
          continue;
        }
      }
      items := items + [groups[i]];
    }
    assert groups[..|groups|] == groups;
  }

  method FilterGroupIds(ids: seq<string>, allowed: set<string>) returns (items: seq<string>)
    ensures items == KeptIds(ids, allowed)
  {
    var seen: set<string> := {};
    items := [];
    for i := 0 to |ids|
      invariant items == KeptIds(ids[..i], allowed)
      invariant forall id :: id in seen <==> id in items
    {
      assert ids[..i + 1][..i] == ids[..i];
      var next := Trim(ids[i]);
      if next == "" {
        continue;
      }
      if |allowed| > 0 {
        if next !in allowed {
          continue;
        }
      }
      if next in seen {
        continue;
      }
      seen := seen + {next};
      items := items + [next];
    }
    assert ids[..|ids|] == ids;
  }

  method ConfigUsers(lower: string -> string, accounts: seq<Account>, buildings: set<string>, allowed: set<string>)
    returns (items: seq<User>)
    ensures items == ScopedUsers(lower, accounts, buildings, allowed)
  {
    items := [];
    for i := 0 to |accounts|
      invariant items == ScopedUsers(lower, accounts[..i], buildings, allowed)
    {
      assert accounts[..i + 1][..i] == accounts[..i];
      if lower(Trim(accounts[i].status)) != "active" {
        continue;
      }
      var buildingId := Trim(accounts[i].buildingId);
      if buildingId != "" {
        if buildingId !in buildings {
          continue;
        }
      }
      var groupIds := FilterGroupIds(accounts[i].user.groupIds, allowed);
      items := items + [accounts[i].user.(groupIds := groupIds)];
    }
    assert accounts[..|accounts|] == accounts;
  }

  // ---- What the scope keeps ----

  lemma {:induction false} ScopedGroupsAre(groups: seq<UserGroup>, buildings: set<string>, ug: UserGroup)
    ensures ug in ScopedGroups(groups, buildings)
       <==> ug in groups && (Trim(ug.buildingId) == "" || Trim(ug.buildingId) in buildings)
  {
    if groups != [] {
      var n := |groups| - 1;
      ScopedGroupsAre(groups[..n], buildings, ug);
      assert groups == groups[..n] + [groups[n]];
    }
  }

  lemma {:induction false} KeptIdsAre(ids: seq<string>, allowed: set<string>, id: string)
    ensures id in KeptIds(ids, allowed)
       <==> id != "" && (allowed == {} || id in allowed) && exists x :: x in ids && Trim(x) == id
  {
    if ids != [] {
      var n := |ids| - 1;
      KeptIdsAre(ids[..n], allowed, id);
      assert ids == ids[..n] + [ids[n]];
    }
  }

  /** Kept are the users of active accounts of no building or of one with a bound door, unchanged but for the groups. */
  lemma {:induction false} ScopedUsersAre(lower: string -> string, accounts: seq<Account>, buildings: set<string>,
                                          allowed: set<string>, u: User)
    ensures u in ScopedUsers(lower, accounts, buildings, allowed)
       <==> exists a :: a in accounts && KeptAs(lower, a, buildings, allowed, u)
  {
    hide KeptAs, Considered, ScopedUser;
    if accounts != [] {
      var n := |accounts| - 1;
      ScopedUsersAre(lower, accounts[..n], buildings, allowed, u);
      KeptMeans(lower, accounts[n], buildings, allowed, u);
      assert accounts == accounts[..n] + [accounts[n]];
    }
  }

  lemma KeptMeans(lower: string -> string, a: Account, buildings: set<string>, allowed: set<string>, u: User)
    ensures KeptAs(lower, a, buildings, allowed, u) <==> Considered(lower, a, buildings) && u == ScopedUser(a, allowed)
  {
    hide KeptIds;
  }

  ghost predicate KeptAs(lower: string -> string, a: Account, buildings: set<string>, allowed: set<string>, u: User) {
    && lower(Trim(a.status)) == "active" && (Trim(a.buildingId) == "" || Trim(a.buildingId) in buildings)
    && u.id == a.user.id && u.email == a.user.email && u.groupIds == KeptIds(a.user.groupIds, allowed)
  }

  /** A group that covers a bound door by its own building is never dropped; one that covers it by its place is, if it
      belongs to a building without bound doors. */
  lemma OwnBuildingIsKept(doors: seq<Door>, bound: set<string>, ug: UserGroup, door: Door)
    requires door in doors && Trim(door.id) in bound && door.buildingId == ug.buildingId
    ensures InBuildings(ug.buildingId, BuildingsOf(doors, bound))
  {
  }

  predicate Member(a: Account, ug: UserGroup) {
    ug.id != "" && exists id :: id in a.user.groupIds && Trim(id) == ug.id
  }

  /** The lock set of an account at a gateway with these bound doors. */
  function LocksAt(dir: Directory, bound: set<string>, groups: seq<UserGroup>, a: Account): set<string> {
    var scoped := ScopedGroups(groups, BuildingsOf(dir.doors, bound));
    LockSet(dir, bound, scoped, ScopedUser(a, IdsOf(scoped)))
  }

  lemma BelongsInScope(groups: seq<UserGroup>, buildings: set<string>, a: Account, ug: UserGroup)
    ensures var scoped := ScopedGroups(groups, buildings);
            ug in scoped && Belongs(ScopedUser(a, IdsOf(scoped)), ug)
            <==> ug in groups && InBuildings(ug.buildingId, buildings) && Member(a, ug)
  {
    var scoped := ScopedGroups(groups, buildings);
    ScopedGroupsAre(groups, buildings, ug);
    KeptIdsAre(a.user.groupIds, IdsOf(scoped), ug.id);
  }

  /** Nothing connects a door group to the user's own groups: a bound door that neither a building nor a role gives
      opens all the same exactly when it is in any door group and the user in any group that is considered. */
  lemma GroupedDoorOpens(dir: Directory, bound: set<string>, groups: seq<UserGroup>, a: Account, doorId: string)
    requires doorId in bound
    requires forall ra :: ra in dir.roles && Holds(a.user, ra) ==> !InScope(dir.doors, ra, doorId)
    requires forall ug :: ug in groups && Member(a, ug) ==> !InBuilding(dir.doors, ug, doorId)
    ensures doorId in LocksAt(dir, bound, groups, a)
       <==> (InDoorGroup(dir.doorGroups, doorId)
             && exists ug :: ug in groups && Member(a, ug)
                          && InBuildings(ug.buildingId, BuildingsOf(dir.doors, bound)))
  {
    hide InScope, InBuilding, InDoorGroup, Member, InBuildings, BuildingsOf, Belongs, ScopedGroups;
    var buildings := BuildingsOf(dir.doors, bound);
    var scoped := ScopedGroups(groups, buildings);
    var user := ScopedUser(a, IdsOf(scoped));
    forall ug
      ensures ug in scoped && Belongs(user, ug)
         <==> ug in groups && InBuildings(ug.buildingId, buildings) && Member(a, ug)
    {
      BelongsInScope(groups, buildings, a, ug);
    }
    assert forall ra :: Holds(user, ra) <==> Holds(a.user, ra);
    assert !ByRole(dir, dir.roles, user, doorId);
  }

  lemma AnnexLacksVault(doors: seq<Door>, guests: UserGroup)
    requires doors == [Door("vault", "headquarters"), Door("desk", "annex")]
    requires guests == UserGroup("guests", "annex", "")
    ensures !InBuilding(doors, guests, "vault") && InBuildings("annex", BuildingsOf(doors, {"vault", "desk"}))
  {
    VaultIsElsewhere(doors, guests);
    hide InBuilding, BuildingsOf, InBuildings;
    TrimLeaves("desk");
    assert doors[1] in doors;
    OwnBuildingIsKept(doors, {"vault", "desk"}, guests, doors[1]);
  }

  lemma VaultIsElsewhere(doors: seq<Door>, guests: UserGroup)
    requires doors == [Door("vault", "headquarters"), Door("desk", "annex")]
    requires guests == UserGroup("guests", "annex", "")
    ensures !InBuilding(doors, guests, "vault")
  {
    assert "vault"[0] != "desk"[0] && "headquarters"[0] != "annex"[0];
    assert doors[0].buildingId != guests.buildingId && doors[0].buildingId != guests.placeId;
  }

  /** A guest of the annex opens the vault at headquarters, because one gateway has a door in each and the vault is in
      some door group. */
  lemma GroupedDoorExample()
    ensures var dir := Directory([["vault"]], [Door("vault", "headquarters"), Door("desk", "annex")], []);
            var guests := UserGroup("guests", "annex", "");
            var a := Account(User("7", "", ["guests"]), "active", "annex");
            "vault" in LocksAt(dir, {"vault", "desk"}, [guests], a) && !InBuilding(dir.doors, guests, "vault")
  {
    var dir := Directory([["vault"]], [Door("vault", "headquarters"), Door("desk", "annex")], []);
    var guests := UserGroup("guests", "annex", "");
    var a := Account(User("7", "", ["guests"]), "active", "annex");
    hide InBuilding, BuildingsOf, InBuildings, LocksAt, InScope;
    AnnexLacksVault(dir.doors, guests);
    TrimLeaves("guests");
    assert "guests" in a.user.groupIds && ["vault"] in dir.doorGroups && guests in [guests];
    assert Member(a, guests);
    GroupedDoorOpens(dir, {"vault", "desk"}, [guests], a, "vault");
  }
}
