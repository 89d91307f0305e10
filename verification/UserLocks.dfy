/** Which of a gateway's doors each user may open: the cloud's access relation and the nested loops that compute it. */
module UserLocks {
  import opened SortedStrings
  import opened Text

  datatype User = User(id: string, email: string, groupIds: seq<string>)
  datatype UserGroup = UserGroup(id: string, buildingId: string, placeId: string)
  datatype Door = Door(id: string, buildingId: string)
  datatype RoleAssignment = RoleAssignment(assigneeType: string, assigneeId: string,
                                           appliesToType: string, appliesToId: string)

  /** The tenant's door groups (as lists of door ids), doors and role assignments. */
  datatype Directory = Directory(doorGroups: seq<seq<string>>, doors: seq<Door>, roles: seq<RoleAssignment>)

  // ---- The access relation ----

  /** The gateway's bound doors: ids are trimmed and blank ones dropped. */
  function BoundDoors(ids: seq<string>): set<string> {
    set id | id in ids && Trim(id) != "" :: Trim(id)
  }

  predicate InDoorGroup(doorGroups: seq<seq<string>>, doorId: string) {
    exists g :: g in doorGroups && doorId in g
  }

  predicate InBuilding(doors: seq<Door>, ug: UserGroup, doorId: string) {
    exists door :: door in doors && door.id == doorId
                && (door.buildingId == ug.buildingId || door.buildingId == ug.placeId)
  }

  predicate InScope(doors: seq<Door>, ra: RoleAssignment, doorId: string) {
    exists door :: door in doors && door.id == doorId
                && (ra.appliesToType == "Organization"
                    || (ra.appliesToType == "Place" && ra.appliesToId == door.buildingId))
  }

  predicate Belongs(user: User, ug: UserGroup) {
    ug.id in user.groupIds
  }

  predicate Holds(user: User, ra: RoleAssignment) {
    ra.assigneeType == "User" && ra.assigneeId == user.id
  }

  predicate ByGroup(dir: Directory, groups: seq<UserGroup>, user: User, doorId: string) {
    exists ug :: ug in groups && Belongs(user, ug)
              && (InDoorGroup(dir.doorGroups, doorId) || InBuilding(dir.doors, ug, doorId))
  }

  predicate ByRole(dir: Directory, roles: seq<RoleAssignment>, user: User, doorId: string) {
    exists ra :: ra in roles && Holds(user, ra) && InScope(dir.doors, ra, doorId)
  }

  /** The bound doors a user may open: through membership of a group that covers the door, where membership of
      any group covers every door that is in a door group, or through a role over the organisation or the building. */
  function LockSet(dir: Directory, bound: set<string>, groups: seq<UserGroup>, user: User): set<string> {
    set d | d in bound && (ByGroup(dir, groups, user, d) || ByRole(dir, dir.roles, user, d))
  }

  // ---- The loops ----

  method AddDoorGroups(doorGroups: seq<seq<string>>, bound: set<string>, before: set<string>)
    returns (locks: set<string>)
    ensures forall d :: d in locks <==> d in before || (d in bound && InDoorGroup(doorGroups, d))
  {
    locks := before;
    for i := 0 to |doorGroups|
      invariant forall d :: d in locks <==> d in before || (d in bound && InDoorGroup(doorGroups[..i], d))
    {
      var sofar := locks;
      for j := 0 to |doorGroups[i]|
        invariant forall d :: d in locks <==> d in sofar || (d in bound && d in doorGroups[i][..j])
      {
        assert doorGroups[i][..j + 1] == doorGroups[i][..j] + [doorGroups[i][j]];
        if doorGroups[i][j] in bound {
          locks := locks + {doorGroups[i][j]};
        }
      }
      GroupsExtend(doorGroups, i);
    }
    assert doorGroups[..|doorGroups|] == doorGroups;
  }

  lemma GroupsExtend(doorGroups: seq<seq<string>>, i: nat)
    requires i < |doorGroups|
    ensures forall d :: InDoorGroup(doorGroups[..i + 1], d)
                   <==> InDoorGroup(doorGroups[..i], d) || d in doorGroups[i][..|doorGroups[i]|]
  {
    assert doorGroups[..i + 1] == doorGroups[..i] + [doorGroups[i]];
    assert doorGroups[i][..|doorGroups[i]|] == doorGroups[i];
  }

  method AddBuildingDoors(doors: seq<Door>, bound: set<string>, ug: UserGroup, before: set<string>)
    returns (locks: set<string>)
    ensures forall d :: d in locks <==> d in before || (d in bound && InBuilding(doors, ug, d))
  {
    locks := before;
    for i := 0 to |doors|
      invariant forall d :: d in locks <==> d in before || (d in bound && InBuilding(doors[..i], ug, d))
    {
      assert doors[..i + 1] == doors[..i] + [doors[i]];
      if doors[i].id in bound {
        if doors[i].buildingId == ug.buildingId || doors[i].buildingId == ug.placeId {
          locks := locks + {doors[i].id};
        }
      }
    }
    assert doors[..|doors|] == doors;
  }

  method AddRoleDoors(doors: seq<Door>, bound: set<string>, ra: RoleAssignment, before: set<string>)
    returns (locks: set<string>)
    ensures forall d :: d in locks <==> d in before || (d in bound && InScope(doors, ra, d))
  {
    locks := before;
    for i := 0 to |doors|
      invariant forall d :: d in locks <==> d in before || (d in bound && InScope(doors[..i], ra, d))
    {
      assert doors[..i + 1] == doors[..i] + [doors[i]];
      if doors[i].id in bound {
        if ra.appliesToType == "Organization"
           || (ra.appliesToType == "Place" && ra.appliesToId == doors[i].buildingId)
        {
          locks := locks + {doors[i].id};
        }
      }
    }
    assert doors[..|doors|] == doors;
  }

  method LocksOfUser(dir: Directory, bound: set<string>, groups: seq<UserGroup>, user: User)
    returns (locks: set<string>)
    ensures locks == LockSet(dir, bound, groups, user)
  {
    locks := {};
    for i := 0 to |groups|
      invariant forall d :: d in locks <==> d in bound && ByGroup(dir, groups[..i], user, d)
    {
      assert groups[..i + 1] == groups[..i] + [groups[i]];
      if !Belongs(user, groups[i]) {
        continue;
      }
      locks := AddDoorGroups(dir.doorGroups, bound, locks);
      locks := AddBuildingDoors(dir.doors, bound, groups[i], locks);
    }
    assert groups[..|groups|] == groups;
    var byGroup := locks;
    for i := 0 to |dir.roles|
      invariant forall d :: d in locks <==> d in byGroup || (d in bound && ByRole(dir, dir.roles[..i], user, d))
    {
      assert dir.roles[..i + 1] == dir.roles[..i] + [dir.roles[i]];
      if !Holds(user, dir.roles[i]) {
        continue;
      }
      locks := AddRoleDoors(dir.doors, bound, dir.roles[i], locks);
    }
    assert dir.roles[..|dir.roles|] == dir.roles;
  }

  /** What each user id maps to: the lock set of the last user with that id who may open anything. */
  function Access(dir: Directory, bound: set<string>, groups: seq<UserGroup>,
                  users: seq<User>): map<string, set<string>>
  {
    if users == [] then map[]
    else
      var n := |users| - 1;
      var before, locks := Access(dir, bound, groups, users[..n]), LockSet(dir, bound, groups, users[n]);
      if locks == {} then before else before[users[n].id := locks]
  }

  /** `lists` holds the sets of `access` as strictly sorted lists. */
  ghost predicate Lists(lists: map<string, seq<string>>, access: map<string, set<string>>) {
    && (forall id :: id in lists <==> id in access)
    && (forall id :: id in lists ==> Listing(lists[id], access[id]))
  }

  ghost predicate Listing(list: seq<string>, elements: set<string>) {
    StrictlySorted(list) && forall d :: d in list <==> d in elements
  }

  lemma BoundDoorsAreNotBlank(ids: seq<string>)
    ensures forall d :: d in BoundDoors(ids) ==> Trim(d) != ""
  {
    forall d | d in BoundDoors(ids)
      ensures Trim(d) != ""
    {
      var id :| id in ids && Trim(id) != "" && Trim(id) == d;
      TrimIsTrimmed(id);
    }
  }

  method BuildUserLockAccess(dir: Directory, boundDoorIds: seq<string>, groups: seq<UserGroup>, users: seq<User>)
    returns (userLocks: map<string, seq<string>>)
    ensures Lists(userLocks, Access(dir, BoundDoors(boundDoorIds), groups, users))
  {
    userLocks := map[];
    var bound := CollectBoundDoors(boundDoorIds);
    BoundDoorsAreNotBlank(boundDoorIds);
    if bound == {} {
      NothingBound(dir, groups, users);
      return;
    }
    for i := 0 to |users|
      invariant Lists(userLocks, Access(dir, bound, groups, users[..i]))
    {
      assert users[..i + 1][..i] == users[..i];
      var locks := LocksOfUser(dir, bound, groups, users[i]);
      if |locks| > 0 {
        var list := SortedSetKeys(locks);
        assert Listing(list, locks);
        userLocks := userLocks[users[i].id := list];
      }
    }
    assert users[..|users|] == users;
  }

  method CollectBoundDoors(ids: seq<string>) returns (bound: set<string>)
    ensures bound == BoundDoors(ids)
  {
    bound := {};
    for i := 0 to |ids|
      invariant bound == BoundDoors(ids[..i])
    {
      assert ids[..i + 1] == ids[..i] + [ids[i]];
      var next := Trim(ids[i]);
      if next != "" {
        bound := bound + {next};
      }
    }
    assert ids[..|ids|] == ids;
  }

  lemma {:induction false} NothingBound(dir: Directory, groups: seq<UserGroup>, users: seq<User>)
    ensures Access(dir, {}, groups, users) == map[]
  {
    if users != [] {
      NothingBound(dir, groups, users[..|users| - 1]);
    }
  }

  /** User ids that name one user each. */
  predicate DistinctIds(users: seq<User>) {
    forall i, j :: 0 <= i < j < |users| ==> users[i].id != users[j].id
  }

  ghost predicate MayOpen(dir: Directory, bound: set<string>, groups: seq<UserGroup>, users: seq<User>, id: string,
                          doorId: string)
  {
    exists u :: u in users && u.id == id && doorId in LockSet(dir, bound, groups, u)
  }

  /** The computed map is never more than the access relation, and it is the access relation when ids are distinct.
      Every listed door is bound. */
  lemma {:induction false} AccessIsRelation(dir: Directory, bound: set<string>, groups: seq<UserGroup>,
                                            users: seq<User>, id: string, doorId: string)
    ensures var access := Access(dir, bound, groups, users);
            && (id in access && doorId in access[id] ==>
                  MayOpen(dir, bound, groups, users, id, doorId) && doorId in bound)
            && (DistinctIds(users) && MayOpen(dir, bound, groups, users, id, doorId) ==>
                  id in access && doorId in access[id])
  {
    hide LockSet, MayOpen, DistinctIds;
    if users == [] {
      MayOpenNobody(dir, bound, groups, id, doorId);
    } else {
      var n := |users| - 1;
      AccessIsRelation(dir, bound, groups, users[..n], id, doorId);
      MayOpenStep(dir, bound, groups, users, id, doorId);
      LocksAreBound(dir, bound, groups, users[n]);
    }
  }

  /** Every door id belongs to one door. */
  predicate DistinctDoors(doors: seq<Door>) {
    forall i, j :: 0 <= i < j < |doors| ==> doors[i].id != doors[j].id
  }

  /** A door in no door group opens to a user exactly by its building: through a group of that building or place, or a
      role of the user over the organisation or over that building. */
  lemma UngroupedDoorOpens(dir: Directory, bound: set<string>, groups: seq<UserGroup>, user: User, door: Door)
    requires door in dir.doors && DistinctDoors(dir.doors) && door.id in bound
    requires forall g :: g in dir.doorGroups ==> door.id !in g
    ensures door.id in LockSet(dir, bound, groups, user)
       <==> || (exists ug :: ug in groups && ug.id in user.groupIds && door.buildingId in {ug.buildingId, ug.placeId})
            || (exists ra :: ra in dir.roles && ra.assigneeType == "User" && ra.assigneeId == user.id
                          && (ra.appliesToType == "Organization"
                              || (ra.appliesToType == "Place" && ra.appliesToId == door.buildingId)))
  {
    var k :| 0 <= k < |dir.doors| && dir.doors[k] == door;
    forall other | other in dir.doors && other.id == door.id
      ensures other == door
    {
      var i :| 0 <= i < |dir.doors| && dir.doors[i] == other;
    }
    forall ug
      ensures InBuilding(dir.doors, ug, door.id) <==> door.buildingId in {ug.buildingId, ug.placeId}
    {
    }
    forall ra
      ensures InScope(dir.doors, ra, door.id)
         <==> (ra.appliesToType == "Organization"
               || (ra.appliesToType == "Place" && ra.appliesToId == door.buildingId))
    {
    }
  }

  lemma MayOpenNobody(dir: Directory, bound: set<string>, groups: seq<UserGroup>, id: string, doorId: string)
    ensures !MayOpen(dir, bound, groups, [], id, doorId)
  {
  }

  lemma LocksAreBound(dir: Directory, bound: set<string>, groups: seq<UserGroup>, user: User)
    ensures LockSet(dir, bound, groups, user) <= bound
  {
  }

  lemma MayOpenStep(dir: Directory, bound: set<string>, groups: seq<UserGroup>, users: seq<User>, id: string,
                    doorId: string)
    requires users != []
    ensures var n := |users| - 1;
            MayOpen(dir, bound, groups, users, id, doorId)
            == (MayOpen(dir, bound, groups, users[..n], id, doorId)
                || (users[n].id == id && doorId in LockSet(dir, bound, groups, users[n])))
    ensures DistinctIds(users) ==> DistinctIds(users[..|users| - 1])
    ensures DistinctIds(users) && users[|users| - 1].id == id ==>
              !MayOpen(dir, bound, groups, users[..|users| - 1], id, doorId)
  {
    hide LockSet;
    var n := |users| - 1;
    assert users == users[..n] + [users[n]];
    if DistinctIds(users) {
      assert forall j :: 0 <= j < n ==> users[j].id != users[n].id;
    }
  }
}
