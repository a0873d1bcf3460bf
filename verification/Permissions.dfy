/** Who may do what on a space: the tables, the three permission queries, and the two places that enforce them. */
module Permissions {
  import opened ByteStrings

  /** A user or a group, as `owner_type`/`owner_id` and `grantee_type`/`grantee_id` name it. */
  datatype Party = Party(kind: string, id: string)

  /** `groups`, `group_members`, `spaces` and `space_access`, by primary key. */
  datatype Tables = Tables(
    creators: map<string, string>,             // group to creator
    roles: map<(string, string), string>,      // (group, user) to role
    owners: map<string, Party>,                // space to owner
    access: map<(string, Party), string>)      // (space, grantee) to permission

  // The queries. Duplicate rows do not show in MAX or in COUNT(*) > 0, so row sets are sets.

  function UserGroups(db: Tables, user: string): set<string> {
    set k | k in db.roles && k.1 == user :: k.0
  }

  function Rank(perm: string): (r: nat) {
    if perm == "admin" then 3 else if perm == "write" then 2 else if perm == "read" then 1 else 0
  }

  function Label(rank: nat): string {
    if rank == 3 then "admin" else if rank == 2 then "write" else if rank == 1 then "read" else "none"
  }

  /** `MAX(CASE perm ...)` over the rows. */
  function MaxRank(perms: set<string>): (r: nat)
    ensures forall p :: p in perms ==> Rank(p) <= r
    ensures perms != {} ==> exists p :: p in perms && Rank(p) == r
  {
    if "admin" in perms then 3 else if "write" in perms then 2 else if "read" in perms then 1
    else assert perms != {} ==> exists p :: p in perms && Rank(p) == 0; 0
  }

  /** The rows of `resolve_user_permission`, and of `find_for_user`, for one space. */
  function Rows(db: Tables, user: string, space: string): set<string> {
    (if space in db.owners && db.owners[space] == Party("user", user) then {"admin"} else {})
    + (if space in db.owners && db.owners[space].kind == "group" && db.owners[space].id in UserGroups(db, user) then {"admin"} else {})
    + (if (space, Party("user", user)) in db.access then {db.access[(space, Party("user", user))]} else {})
    + (set g | g in UserGroups(db, user) && (space, Party("group", g)) in db.access :: db.access[(space, Party("group", g))])
  }

  /** `resolve_user_permission`: no row at all is no permission. */
  function Resolve(db: Tables, user: string, space: string): Option<string> {
    var rows := Rows(db, user, space);
    if rows == {} then None else Some(Label(MaxRank(rows)))
  }

  /** `find_for_user`: the space joined with its best row, unless that is "none". */
  function FindForUser(db: Tables, user: string, space: string): Option<string> {
    var best := Label(MaxRank(Rows(db, user, space)));
    if space in db.owners && best != "none" then Some(best) else None
  }

  /** `accessible_spaces` in `find_all_for_user`: pairs of a space and a permission. */
  function Accessible(db: Tables, user: string): set<(string, string)> {
    (set s | s in db.owners && db.owners[s] == Party("user", user) :: (s, "admin"))
    + (set s | s in db.owners && db.owners[s].kind == "group" && db.owners[s].id in UserGroups(db, user) :: (s, "admin"))
    + (set k | k in db.access && k.1 == Party("user", user) :: (k.0, db.access[k]))
    + (set k | k in db.access && k.1.kind == "group" && k.1.id in UserGroups(db, user) :: (k.0, db.access[k]))
  }

  /** `find_all_for_user`: pairs grouped by space, each group's best label, joined with the spaces that exist. */
  function FindAllForUser(db: Tables, user: string): map<string, string> {
    var pairs := Accessible(db, user);
    map s | s in (set pair | pair in pairs :: pair.0) && s in db.owners ::
      Label(MaxRank(set pair | pair in pairs && pair.0 == s :: pair.1))
  }

  lemma GroupedRows(db: Tables, user: string, space: string)
    ensures (set pair | pair in Accessible(db, user) && pair.0 == space :: pair.1) == Rows(db, user, space)
    ensures space in (set pair | pair in Accessible(db, user) :: pair.0) <==> Rows(db, user, space) != {}
  {
    var (pairs, rows) := (Accessible(db, user), Rows(db, user, space));
    var grouped := set pair | pair in pairs && pair.0 == space :: pair.1;
    forall p ensures p in grouped <==> p in rows {
      assert p in grouped <==> (space, p) in pairs;
    }
    assert space in (set pair | pair in pairs :: pair.0) <==> exists p :: (space, p) in pairs;
    assert forall p :: (space, p) in pairs <==> p in grouped;
  }

  /**
    The three queries on any tables: the list shows a space exactly when it exists and resolves, with the resolved label;
    the single lookup shows it exactly when the label is not "none".
   */
  lemma QueriesCompared(db: Tables, user: string, space: string)
    ensures space in FindAllForUser(db, user) <==> space in db.owners && Resolve(db, user, space).Some?
    ensures space in FindAllForUser(db, user) ==> Some(FindAllForUser(db, user)[space]) == Resolve(db, user, space)
    ensures FindForUser(db, user, space) ==
      if space in db.owners && Resolve(db, user, space) != Some("none") then Resolve(db, user, space) else None
  {
    GroupedRows(db, user, space);
  }

  // Well-kept tables.

  predicate ValidPermission(perm: string) {
    perm == "read" || perm == "write" || perm == "admin"
  }

  predicate GrantKept(db: Tables, k: (string, Party)) {
    k in db.access ==> k.0 in db.owners && ValidPermission(db.access[k])
  }

  /** Grants refer to spaces that exist, and carry a permission. */
  ghost predicate GrantsKept(db: Tables) {
    forall k {:trigger GrantKept(db, k)} :: GrantKept(db, k)
  }

  lemma RowsAreRanked(db: Tables, user: string, space: string)
    requires GrantsKept(db)
    ensures forall p :: p in Rows(db, user, space) ==> ValidPermission(p)
    ensures Rows(db, user, space) != {} ==> space in db.owners
  {
    assert GrantKept(db, (space, Party("user", user)));
    forall g ensures GrantKept(db, (space, Party("group", g))) {}
    forall p | p in Rows(db, user, space) ensures ValidPermission(p) && space in db.owners {
      if p == "admin" && space in db.owners {
      } else if (space, Party("user", user)) in db.access && p == db.access[(space, Party("user", user))] {
      } else {
        var g :| g in UserGroups(db, user) && (space, Party("group", g)) in db.access && p == db.access[(space, Party("group", g))];
        assert GrantKept(db, (space, Party("group", g)));
      }
    }
  }

  /** With grants kept, the three queries give one answer. */
  lemma QueriesAgree(db: Tables, user: string, space: string)
    requires GrantsKept(db)
    ensures FindForUser(db, user, space) == Resolve(db, user, space)
    ensures Resolve(db, user, space) ==
      if space in FindAllForUser(db, user) then Some(FindAllForUser(db, user)[space]) else None
    ensures Resolve(db, user, space) != Some("none")
  {
    QueriesCompared(db, user, space);
    RowsAreRanked(db, user, space);
    var rows := Rows(db, user, space);
    if rows != {} {
      var p :| p in rows && Rank(p) == MaxRank(rows);
    }
  }

  // Enforcement.

  datatype Denial = NotFound | Forbidden

  function PermissionLevel(perm: string): nat {
    if perm == "read" then 1 else if perm == "write" then 2 else if perm == "admin" then 3 else 0
  }

  /** `check_space_permission`, the request guard. */
  function Guard(db: Tables, user: string, space: string, required: nat): Result<(), Denial> {
    match FindForUser(db, user, space)
    case None => Err(NotFound)
    case Some(perm) => if PermissionLevel(perm) < required then Err(Forbidden) else Ok(())
  }

  /** `require_permission`, the service's check. */
  function Require(db: Tables, user: string, space: string, required: string): Result<(), Denial> {
    match Resolve(db, user, space)
    case None => Err(NotFound)
    case Some(perm) => if PermissionLevel(perm) < PermissionLevel(required) then Err(Forbidden) else Ok(())
  }

  /** Guard and service decide alike, error for error. */
  lemma GuardIsService(db: Tables, user: string, space: string, required: string)
    requires GrantsKept(db)
    ensures Guard(db, user, space, PermissionLevel(required)) == Require(db, user, space, required)
  {
    QueriesAgree(db, user, space);
  }

  /** A permission unknown to the code would set them apart: the guard finds nothing, the service forbids. */
  lemma UnknownPermissionSplitsThem(user: string, space: string, owner: Party, perm: string)
    requires !ValidPermission(perm) && owner != Party("user", user)
    ensures var db := Tables(map[], map[], map[space := owner], map[(space, Party("user", user)) := perm]);
      && Guard(db, user, space, 1) == Err(NotFound)
      && Require(db, user, space, "read") == Err(Forbidden)
      && space in FindAllForUser(db, user)
  {
    var db := Tables(map[], map[], map[space := owner], map[(space, Party("user", user)) := perm]);
    assert UserGroups(db, user) == {};
    assert Rows(db, user, space) == {perm};
    QueriesCompared(db, user, space);
  }

  // The meaning of a level: the best of four ways in.

  /** A user's level on a space; 0 is no access. */
  function Level(db: Tables, user: string, space: string): nat {
    match Resolve(db, user, space)
    case None => 0
    case Some(perm) => PermissionLevel(perm)
  }

  predicate Member(db: Tables, group: string, user: string) {
    (group, user) in db.roles
  }

  /** The user is the party, or belongs to it. */
  predicate Speaks(db: Tables, user: string, party: Party) {
    party == Party("user", user) || (party.kind == "group" && Member(db, party.id, user))
  }

  predicate OwnsThrough(db: Tables, space: string, party: Party) {
    space in db.owners && db.owners[space] == party
  }

  predicate GrantedAt(db: Tables, space: string, party: Party, level: nat) {
    (space, party) in db.access && Rank(db.access[(space, party)]) >= level
  }

  /** The party owns the space or has a grant of at least `level`. */
  predicate Stake(db: Tables, space: string, party: Party, level: nat) {
    OwnsThrough(db, space, party) || GrantedAt(db, space, party, level)
  }

  lemma LevelIsMaxRank(db: Tables, user: string, space: string)
    ensures Level(db, user, space) == MaxRank(Rows(db, user, space))
  {
  }

  /** A user reaches a level exactly through a party they speak for that has a stake of that level. */
  lemma LevelIsBestPath(db: Tables, user: string, space: string, level: nat)
    requires 1 <= level <= 3
    ensures Level(db, user, space) >= level <==> exists party :: Speaks(db, user, party) && Stake(db, space, party, level)
  {
    LevelIsMaxRank(db, user, space);
    var rows := Rows(db, user, space);
    if Level(db, user, space) >= level {
      var p :| p in rows && Rank(p) >= level;
      RowHasPath(db, user, space, level, p);
    }
    if party :| Speaks(db, user, party) && Stake(db, space, party, level) {
      PathHasRow(db, user, space, level, party);
    }
  }

  lemma RowHasPath(db: Tables, user: string, space: string, level: nat, p: string)
    requires p in Rows(db, user, space) && Rank(p) >= level
    ensures exists party :: Speaks(db, user, party) && Stake(db, space, party, level)
  {
    var me := Party("user", user);
    if OwnsThrough(db, space, me) || ((space, me) in db.access && p == db.access[(space, me)]) {
      assert Speaks(db, user, me) && Stake(db, space, me, level);
    } else if space in db.owners && Speaks(db, user, db.owners[space]) {
      assert Stake(db, space, db.owners[space], level);
    } else {
      var g :| g in UserGroups(db, user) && (space, Party("group", g)) in db.access && p == db.access[(space, Party("group", g))];
      assert Speaks(db, user, Party("group", g)) && Stake(db, space, Party("group", g), level);
    }
  }

  lemma PathHasRow(db: Tables, user: string, space: string, level: nat, party: Party)
    requires Speaks(db, user, party) && Stake(db, space, party, level) && level <= 3
    ensures exists p :: p in Rows(db, user, space) && Rank(p) >= level
  {
    assert party.kind == "group" && Member(db, party.id, user) ==> party.id in UserGroups(db, user) by {
      if Member(db, party.id, user) {
        assert (party.id, user) in db.roles;
      }
    }
    if OwnsThrough(db, space, party) {
      assert "admin" in Rows(db, user, space);
    } else {
      assert party == Party(party.kind, party.id);
      assert db.access[(space, party)] in Rows(db, user, space);
    }
  }

  /** What the user spoke for they still speak for, and every stake in the space is still there. */
  ghost predicate Keeps(db: Tables, after: Tables, user: string, space: string) {
    && (forall group :: Member(db, group, user) ==> Member(after, group, user))
    && (forall party, level {:trigger Stake(db, space, party, level)} :: Stake(db, space, party, level) ==> Stake(after, space, party, level))
  }

  lemma KeepingNeverLowers(db: Tables, after: Tables, user: string, space: string)
    requires Keeps(db, after, user, space)
    ensures Level(after, user, space) >= Level(db, user, space)
  {
    var level := Level(db, user, space);
    if level >= 1 {
      LevelIsBestPath(db, user, space, level);
      var party :| Speaks(db, user, party) && Stake(db, space, party, level);
      assert Speaks(after, user, party) && Stake(after, space, party, level);
      LevelIsBestPath(after, user, space, level);
    }
  }

  /** Inserting a grant or a membership lowers nobody. */
  lemma InsertsNeverLower(db: Tables, user: string, space: string, grant: (string, Party), perm: string, member: (string, string), role: string)
    ensures grant !in db.access ==> Level(db.(access := db.access[grant := perm]), user, space) >= Level(db, user, space)
    ensures member !in db.roles ==> Level(db.(roles := db.roles[member := role]), user, space) >= Level(db, user, space)
  {
    if grant !in db.access {
      KeepingNeverLowers(db, db.(access := db.access[grant := perm]), user, space);
    }
    if member !in db.roles {
      KeepingNeverLowers(db, db.(roles := db.roles[member := role]), user, space);
    }
  }

  // Enforcement, in terms of what was granted.

  /** The permissions that include `required`: admin includes write, and write includes read. */
  function Including(required: string): set<string> {
    if required == "read" then {"read", "write", "admin"} else if required == "write" then {"write", "admin"} else {"admin"}
  }

  /** The party owns the space, or was granted a permission that includes `required`. */
  predicate Entitled(db: Tables, space: string, party: Party, required: string) {
    OwnsThrough(db, space, party) || ((space, party) in db.access && db.access[(space, party)] in Including(required))
  }

  lemma EntitledIsStake(db: Tables, space: string, party: Party, required: string)
    requires GrantsKept(db) && ValidPermission(required)
    ensures Entitled(db, space, party, required) <==> Stake(db, space, party, PermissionLevel(required))
  {
    assert GrantKept(db, (space, party));
  }

  lemma LevelIsEntitlement(db: Tables, user: string, space: string, required: string)
    requires GrantsKept(db) && ValidPermission(required)
    ensures Level(db, user, space) >= PermissionLevel(required) <==>
      exists party :: Speaks(db, user, party) && Entitled(db, space, party, required)
  {
    LevelIsBestPath(db, user, space, PermissionLevel(required));
    if party :| Speaks(db, user, party) && Stake(db, space, party, PermissionLevel(required)) {
      EntitledIsStake(db, space, party, required);
    }
    if party :| Speaks(db, user, party) && Entitled(db, space, party, required) {
      EntitledIsStake(db, space, party, required);
    }
  }

  lemma DecisionsAreLevels(db: Tables, user: string, space: string, required: string)
    requires GrantsKept(db) && ValidPermission(required)
    ensures Guard(db, user, space, PermissionLevel(required)) == Require(db, user, space, required)
    ensures Require(db, user, space, required) ==
      if Level(db, user, space) == 0 then Err(NotFound)
      else if Level(db, user, space) < PermissionLevel(required) then Err(Forbidden)
      else Ok(())
  {
    GuardIsService(db, user, space, required);
    LevelIsMaxRank(db, user, space);
    RowsAreRanked(db, user, space);
    var rows := Rows(db, user, space);
    if rows != {} {
      var p :| p in rows && Rank(p) == MaxRank(rows);
    }
  }

  /**
    Guard and service let a user pass exactly when a party they speak for owns the space or was granted a permission that
    includes the required one. They find nothing exactly when no such party may even read, and forbid otherwise.
   */
  lemma PassesIffEntitled(db: Tables, user: string, space: string, required: string)
    requires GrantsKept(db) && ValidPermission(required)
    ensures Guard(db, user, space, PermissionLevel(required)) == Require(db, user, space, required)
    ensures var r := Require(db, user, space, required);
      && (r.Ok? <==> exists party :: Speaks(db, user, party) && Entitled(db, space, party, required))
      && (r == Err(NotFound) <==> !exists party :: Speaks(db, user, party) && Entitled(db, space, party, "read"))
  {
    DecisionsAreLevels(db, user, space, required);
    LevelIsEntitlement(db, user, space, required);
    LevelIsEntitlement(db, user, space, "read");
  }
}
