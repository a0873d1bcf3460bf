/**
  Groups, spaces and grants over whole runs. An operation reads, statement by statement, what it needs to be allowed, and
  changes a row in a last statement; any other operation may come between any two. Creating a group takes two inserts.
 */
module AccessControl {
  import opened ByteStrings
  import opened Permissions

  /** The change an operation makes once its checks have passed. */
  datatype Op =
    | DeleteSpace(space: string)
    | GrantAccess(space: string, grantee: Party, perm: string)
    | RevokeAccess(space: string, grantee: Party)
    | ChangeAccess(space: string, grantee: Party, perm: string)
    | AddMember(group: string, user: string, role: string)
    | RemoveMember(group: string, user: string)
    | ChangeRole(group: string, user: string, role: string)
    | DeleteGroup(group: string)
    | OwnerRow(group: string, user: string)

  /** `Checking(n)`: `n` checks have passed. `Ready`: all have, and the change is to come. */
  datatype Stage = Checking(next: nat) | Ready | Finished

  datatype Call = Call(actor: string, op: Op, stage: Stage)

  /** `calls` holds every request ever made; ids come from a random source and are never used twice. */
  datatype State = State(db: Tables, calls: seq<Call>, groupIds: set<string>, spaceIds: set<string>)

  datatype Step =
    | CreateSpace(user: string, space: string)
    | CreateGroupSpace(group: string, space: string)
    | CreateGroup(user: string, group: string)
    | Request(actor: string, op: Op)
    | Check(i: nat)
    | Perform(i: nat)

  const INIT := State(Tables(map[], map[], map[], map[]), [], {}, {})

  predicate Role(db: Tables, group: string, user: string, role: string) {
    (group, user) in db.roles && db.roles[(group, user)] == role
  }

  /** `require_manager_or_owner`. */
  predicate Manages(db: Tables, group: string, user: string) {
    Role(db, group, user, "owner") || Role(db, group, user, "manager")
  }

  predicate AssignableRole(role: string) {
    role == "manager" || role == "member"
  }

  predicate CreatedBy(db: Tables, group: string, user: string) {
    group in db.creators && db.creators[group] == user
  }

  /** How many statements check a request before it changes anything. */
  function Checks(op: Op): (n: nat)
    ensures 1 <= n <= 2
  {
    if op.GrantAccess? || op.RemoveMember? || op.ChangeRole? then 2 else 1
  }

  /** Check `n` of a request, on the tables as they are at that moment, with the tests of its arguments that go with it. */
  predicate Passes(db: Tables, actor: string, op: Op, n: nat) {
    match op
    case DeleteSpace(space) => Require(db, actor, space, "admin").Ok?
    case GrantAccess(space, grantee, perm) =>
      if n == 0 then Require(db, actor, space, "admin").Ok? && ValidPermission(perm)
      else grantee.kind == "user" || (grantee.kind == "group" && grantee.id in db.creators)
    case RevokeAccess(space, _) => Require(db, actor, space, "admin").Ok?
    case ChangeAccess(space, _, perm) => Require(db, actor, space, "admin").Ok? && ValidPermission(perm)
    case AddMember(group, _, role) => Manages(db, group, actor) && AssignableRole(role)
    case RemoveMember(group, user) =>
      if n == 0 then group in db.creators && !CreatedBy(db, group, user)
      else if actor == user then Member(db, group, actor)
      else Manages(db, group, actor)
    case ChangeRole(group, user, role) =>
      if n == 0 then CreatedBy(db, group, actor) && !CreatedBy(db, group, user) && AssignableRole(role)
      else Member(db, group, user)
    case DeleteGroup(group) => CreatedBy(db, group, actor)
    case OwnerRow(_, _) => false
  }

  /** The statement itself, with its unique keys, foreign keys and cascades. */
  function Effect(db: Tables, op: Op): Tables {
    match op
    case DeleteSpace(space) =>
      db.(owners := db.owners - {space}, access := map k | k in db.access && k.0 != space :: db.access[k])
    case GrantAccess(space, grantee, perm) =>
      if space in db.owners && (space, grantee) !in db.access then db.(access := db.access[(space, grantee) := perm]) else db
    case RevokeAccess(space, grantee) => db.(access := db.access - {(space, grantee)})
    case ChangeAccess(space, grantee, perm) =>
      if (space, grantee) in db.access then db.(access := db.access[(space, grantee) := perm]) else db
    case AddMember(group, user, role) => WithMember(db, group, user, role)
    case RemoveMember(group, user) => db.(roles := db.roles - {(group, user)})
    case ChangeRole(group, user, role) =>
      if (group, user) in db.roles then db.(roles := db.roles[(group, user) := role]) else db
    case DeleteGroup(group) =>
      db.(creators := db.creators - {group}, roles := map k | k in db.roles && k.0 != group :: db.roles[k])
    case OwnerRow(group, user) => WithMember(db, group, user, "owner")
  }

  function WithMember(db: Tables, group: string, user: string, role: string): Tables {
    if group in db.creators && (group, user) !in db.roles then db.(roles := db.roles[(group, user) := role]) else db
  }

  function Apply(s: State, step: Step): State {
    match step
    case CreateSpace(user, space) =>
      if space in s.spaceIds then s
      else s.(db := s.db.(owners := s.db.owners[space := Party("user", user)]), spaceIds := s.spaceIds + {space})
    case CreateGroupSpace(group, space) =>
      if space in s.spaceIds || group !in s.groupIds then s
      else s.(db := s.db.(owners := s.db.owners[space := Party("group", group)]), spaceIds := s.spaceIds + {space})
    case CreateGroup(user, group) =>
      if group in s.groupIds then s
      else
        s.(db := s.db.(creators := s.db.creators[group := user]),
           calls := s.calls + [Call(user, OwnerRow(group, user), Ready)], groupIds := s.groupIds + {group})
    case Request(actor, op) => s.(calls := s.calls + [Call(actor, op, Checking(0))])
    case Check(i) =>
      if i < |s.calls| && s.calls[i].stage.Checking? then s.(calls := s.calls[i := Checked(s.db, s.calls[i])]) else s
    case Perform(i) =>
      if i < |s.calls| && s.calls[i].stage.Ready?
      then s.(db := Effect(s.db, s.calls[i].op), calls := s.calls[i := s.calls[i].(stage := Finished)])
      else s
  }

  /** A request after its next check: on to the next one, ready, or turned away. */
  function Checked(db: Tables, call: Call): Call
    requires call.stage.Checking?
  {
    var n := call.stage.next;
    if !Passes(db, call.actor, call.op, n) then call.(stage := Finished)
    else if n + 1 < Checks(call.op) then call.(stage := Checking(n + 1))
    else call.(stage := Ready)
  }

  function Run(steps: seq<Step>): State {
    if steps == [] then INIT else Apply(Run(steps[..|steps| - 1]), steps[|steps| - 1])
  }

  // What every reachable state keeps.

  /** The group has its creator's row, as owner. */
  predicate Headed(db: Tables, group: string) {
    group in db.creators ==> Role(db, group, db.creators[group], "owner")
  }

  /** A membership: of a group that exists, owned by its creator and by nobody else. */
  predicate RoleKept(db: Tables, group: string, user: string) {
    (group, user) in db.roles ==>
      && group in db.creators && Headed(db, group)
      && (Role(db, group, user, "owner") ==> CreatedBy(db, group, user))
  }

  ghost predicate RolesKept(db: Tables) {
    forall group, user {:trigger RoleKept(db, group, user)} :: RoleKept(db, group, user)
  }

  /** The first check has passed. */
  predicate Vetted(call: Call) {
    call.stage.Ready? || (call.stage.Checking? && call.stage.next > 0)
  }

  /** What a request guarantees from its first check on. */
  predicate OpKept(db: Tables, groupIds: set<string>, op: Op) {
    match op
    case GrantAccess(_, _, perm) => ValidPermission(perm)
    case ChangeAccess(_, _, perm) => ValidPermission(perm)
    case AddMember(group, _, role) => group in groupIds && role != "owner" && Headed(db, group)
    case RemoveMember(group, user) => group in groupIds && !CreatedBy(db, group, user)
    case ChangeRole(group, user, role) => group in groupIds && !CreatedBy(db, group, user) && role != "owner"
    case OwnerRow(group, user) => group in groupIds && (group in db.creators ==> CreatedBy(db, group, user))
    case _ => true
  }

  /** A group named in a grant that is ready has existed. */
  predicate CallKept(db: Tables, groupIds: set<string>, call: Call) {
    && (Vetted(call) ==> OpKept(db, groupIds, call.op))
    && (call.stage.Ready? && call.op.GrantAccess? && call.op.grantee.kind == "group" ==> call.op.grantee.id in groupIds)
  }

  ghost predicate CallsKept(db: Tables, groupIds: set<string>, calls: seq<Call>) {
    forall i :: 0 <= i < |calls| ==> CallKept(db, groupIds, calls[i])
  }

  /** Groups that own a space or have a grant have existed. */
  predicate StakesKnown(db: Tables, groupIds: set<string>) {
    && (forall space :: space in db.owners && db.owners[space].kind == "group" ==> db.owners[space].id in groupIds)
    && (forall k :: k in db.access && k.1.kind == "group" ==> k.1.id in groupIds)
  }

  ghost predicate Inv(s: State) {
    && GrantsKept(s.db) && RolesKept(s.db) && CallsKept(s.db, s.groupIds, s.calls) && StakesKnown(s.db, s.groupIds)
    && s.db.creators.Keys <= s.groupIds && s.db.owners.Keys <= s.spaceIds
  }

  lemma EffectKeepsGrants(db: Tables, groupIds: set<string>, op: Op)
    requires GrantsKept(db) && OpKept(db, groupIds, op)
    ensures GrantsKept(Effect(db, op))
  {
    forall k ensures GrantKept(Effect(db, op), k) {
      assert GrantKept(db, k);
    }
  }

  lemma EffectKeepsHead(db: Tables, groupIds: set<string>, op: Op, group: string)
    requires OpKept(db, groupIds, op) && Headed(db, group)
    ensures Headed(Effect(db, op), group)
  {
  }

  lemma EffectKeepsRoles(db: Tables, groupIds: set<string>, op: Op)
    requires RolesKept(db) && OpKept(db, groupIds, op)
    ensures RolesKept(Effect(db, op))
  {
    forall group, user ensures RoleKept(Effect(db, op), group, user) {
      assert RoleKept(db, group, user);
      if Headed(db, group) {
        EffectKeepsHead(db, groupIds, op, group);
      }
    }
  }

  lemma EffectKeepsOp(db: Tables, groupIds: set<string>, op: Op, other: Op)
    requires OpKept(db, groupIds, op) && OpKept(db, groupIds, other)
    ensures OpKept(Effect(db, op), groupIds, other)
  {
  }

  lemma PassingIsKept(db: Tables, groupIds: set<string>, call: Call)
    requires RolesKept(db) && db.creators.Keys <= groupIds && call.stage.Checking? && CallKept(db, groupIds, call)
    ensures CallKept(db, groupIds, Checked(db, call))
  {
    if call.op.AddMember? {
      assert RoleKept(db, call.op.group, call.actor);
    }
  }

  lemma CreateGroupKeeps(s: State, user: string, group: string)
    requires Inv(s) && group !in s.groupIds
    ensures Inv(Apply(s, CreateGroup(user, group)))
  {
    var after := Apply(s, CreateGroup(user, group));
    forall k ensures GrantKept(after.db, k) {
      assert GrantKept(s.db, k);
    }
    forall g, u ensures RoleKept(after.db, g, u) {
      assert RoleKept(s.db, g, u);
    }
    forall i | 0 <= i < |after.calls| ensures CallKept(after.db, after.groupIds, after.calls[i]) {
      if i < |s.calls| {
        assert CallKept(s.db, s.groupIds, s.calls[i]);
      }
    }
  }

  lemma PerformKeeps(s: State, i: nat)
    requires Inv(s) && i < |s.calls| && s.calls[i].stage.Ready?
    ensures Inv(Apply(s, Perform(i)))
  {
    var op := s.calls[i].op;
    assert CallKept(s.db, s.groupIds, s.calls[i]);
    EffectKeepsGrants(s.db, s.groupIds, op);
    EffectKeepsRoles(s.db, s.groupIds, op);
    var after := Apply(s, Perform(i));
    forall j | 0 <= j < |after.calls| ensures CallKept(after.db, after.groupIds, after.calls[j]) {
      assert CallKept(s.db, s.groupIds, s.calls[j]);
      if Vetted(s.calls[j]) {
        EffectKeepsOp(s.db, s.groupIds, op, s.calls[j].op);
      }
    }
  }

  lemma CheckKeeps(s: State, i: nat)
    requires Inv(s) && i < |s.calls| && s.calls[i].stage.Checking?
    ensures Inv(Apply(s, Check(i)))
  {
    assert CallKept(s.db, s.groupIds, s.calls[i]);
    PassingIsKept(s.db, s.groupIds, s.calls[i]);
  }

  lemma NewSpaceKeeps(s: State, space: string, owner: Party)
    requires Inv(s) && space !in s.spaceIds && (owner.kind == "group" ==> owner.id in s.groupIds)
    ensures Inv(s.(db := s.db.(owners := s.db.owners[space := owner]), spaceIds := s.spaceIds + {space}))
  {
    var db := s.db.(owners := s.db.owners[space := owner]);
    forall k ensures GrantKept(db, k) {
      assert GrantKept(s.db, k);
    }
    forall g, u ensures RoleKept(db, g, u) {
      assert RoleKept(s.db, g, u);
    }
    forall i | 0 <= i < |s.calls| ensures CallKept(db, s.groupIds, s.calls[i]) {
      assert CallKept(s.db, s.groupIds, s.calls[i]);
    }
  }

  lemma ApplyKeeps(s: State, step: Step)
    requires Inv(s)
    ensures Inv(Apply(s, step))
  {
    match step
    case CreateSpace(user, space) =>
      if space !in s.spaceIds {
        NewSpaceKeeps(s, space, Party("user", user));
      }
    case CreateGroupSpace(group, space) =>
      if space !in s.spaceIds && group in s.groupIds {
        NewSpaceKeeps(s, space, Party("group", group));
      }
    case CreateGroup(user, group) =>
      if group !in s.groupIds {
        CreateGroupKeeps(s, user, group);
      }
    case Request(_, _) =>
    case Check(i) =>
      if i < |s.calls| && s.calls[i].stage.Checking? {
        CheckKeeps(s, i);
      }
    case Perform(i) =>
      if i < |s.calls| && s.calls[i].stage.Ready? {
        PerformKeeps(s, i);
      }
  }

  lemma {:induction false} RunKeeps(steps: seq<Step>)
    ensures Inv(Run(steps))
  {
    if steps != [] {
      RunKeeps(steps[..|steps| - 1]);
      ApplyKeeps(Run(steps[..|steps| - 1]), steps[|steps| - 1]);
    } else {
      forall k ensures GrantKept(INIT.db, k) {}
      forall g, u ensures RoleKept(INIT.db, g, u) {}
    }
  }

  // Whole runs.

  /** In every reachable state the queries, the guard and the service give one answer. */
  lemma ReachableQueriesAgree(steps: seq<Step>, user: string, space: string, required: string)
    ensures var db := Run(steps).db;
      && FindForUser(db, user, space) == Resolve(db, user, space)
      && (space in FindAllForUser(db, user) <==> Resolve(db, user, space).Some?)
      && (space in FindAllForUser(db, user) ==> Resolve(db, user, space) == Some(FindAllForUser(db, user)[space]))
      && Guard(db, user, space, PermissionLevel(required)) == Require(db, user, space, required)
  {
    RunKeeps(steps);
    QueriesAgree(Run(steps).db, user, space);
    GuardIsService(Run(steps).db, user, space, required);
  }

  /** In every reachable state guard and service let a user pass exactly through an entitled party they speak for. */
  lemma ReachablePassesIffEntitled(steps: seq<Step>, user: string, space: string, required: string)
    requires ValidPermission(required)
    ensures var db := Run(steps).db;
      && Guard(db, user, space, PermissionLevel(required)) == Require(db, user, space, required)
      && (Require(db, user, space, required).Ok? <==>
           exists party :: Speaks(db, user, party) && Entitled(db, space, party, required))
      && (Require(db, user, space, required) == Err(NotFound) <==>
           !exists party :: Speaks(db, user, party) && Entitled(db, space, party, "read"))
  {
    RunKeeps(steps);
    PassesIffEntitled(Run(steps).db, user, space, required);
  }

  /** A group's only `owner` row is its creator's, and a group with any member has it. */
  lemma OnlyTheCreatorOwns(steps: seq<Step>, group: string, user: string)
    ensures var db := Run(steps).db;
      && (Role(db, group, user, "owner") ==> CreatedBy(db, group, user))
      && (Member(db, group, user) ==> group in db.creators && Role(db, group, db.creators[group], "owner"))
  {
    RunKeeps(steps);
    assert RoleKept(Run(steps).db, group, user);
  }

  /** An owner never changes while the space lives. */
  lemma OwnerStays(s: State, step: Step, space: string)
    requires Inv(s) && space in s.db.owners && space in Apply(s, step).db.owners
    ensures Apply(s, step).db.owners[space] == s.db.owners[space]
  {
  }

  lemma OwnerIsAdmin(db: Tables, user: string, space: string)
    requires space in db.owners && Speaks(db, user, db.owners[space])
    ensures Level(db, user, space) == 3 && Require(db, user, space, "admin").Ok?
  {
  }

  /** The space is owned by the user, or gone for good. */
  predicate OwnedOrGone(s: State, user: string, space: string) {
    space in s.spaceIds && (space in s.db.owners ==> s.db.owners[space] == Party("user", user))
  }

  lemma OwnedOrGoneStays(s: State, step: Step, user: string, space: string)
    requires Inv(s) && OwnedOrGone(s, user, space)
    ensures OwnedOrGone(Apply(s, step), user, space)
  {
    if space in s.db.owners && space in Apply(s, step).db.owners {
      OwnerStays(s, step, space);
    }
  }

  lemma {:induction false} RunStaysOwned(steps: seq<Step>, more: seq<Step>, user: string, space: string)
    requires OwnedOrGone(Run(steps), user, space)
    ensures OwnedOrGone(Run(steps + more), user, space)
    decreases |more|
  {
    if more == [] {
      assert steps + more == steps;
    } else {
      var (init, last) := (more[..|more| - 1], more[|more| - 1]);
      RunStaysOwned(steps, init, user, space);
      RunKeeps(steps + init);
      OwnedOrGoneStays(Run(steps + init), last, user, space);
      assert steps + more == (steps + init) + [last];
      RunOn(steps + init, last);
    }
  }

  /** From the creation of a space its owner is the same, and a user who owns it is its admin, until it is deleted for good. */
  lemma UserOwnerStaysAdmin(steps: seq<Step>, more: seq<Step>, user: string, space: string)
    requires space in Run(steps).db.owners && Run(steps).db.owners[space] == Party("user", user)
    ensures var s := Run(steps + more);
      && space in s.spaceIds
      && (space in s.db.owners ==> s.db.owners[space] == Party("user", user) && Level(s.db, user, space) == 3)
  {
    RunKeeps(steps);
    RunStaysOwned(steps, more, user, space);
    if space in Run(steps + more).db.owners {
      OwnerIsAdmin(Run(steps + more).db, user, space);
    }
  }

  /** The operation would raise the user's level on the space, read off the tables before it is performed. */
  predicate Raises(db: Tables, op: Op, user: string, space: string) {
    var level := Level(db, user, space);
    match op
    case GrantAccess(granted, grantee, perm) =>
      granted == space && (space, grantee) !in db.access && Speaks(db, user, grantee) && level < Rank(perm)
    case ChangeAccess(changed, grantee, perm) =>
      changed == space && (space, grantee) in db.access && Speaks(db, user, grantee) && level < Rank(perm)
    case AddMember(group, added, _) =>
      added == user && group in db.creators && !Member(db, group, user) && level < 3 && Stake(db, space, Party("group", group), level + 1)
    case OwnerRow(group, creator) =>
      creator == user && group in db.creators && !Member(db, group, user) && level < 3 && Stake(db, space, Party("group", group), level + 1)
    case _ => false
  }

  /** A new way in is what the operation opens. */
  lemma NewWay(db: Tables, op: Op, user: string, space: string, party: Party, level: nat)
    requires space in db.owners && Level(db, user, space) < level <= 3
    requires Speaks(Effect(db, op), user, party) && Stake(Effect(db, op), space, party, level)
    requires !(Speaks(db, user, party) && Stake(db, space, party, level))
    ensures Raises(db, op, user, space)
  {
    if Speaks(db, user, party) {
      assert !Stake(db, space, party, level) && GrantedAt(Effect(db, op), space, party, level);
    } else {
      assert Stake(db, space, party, level);
    }
  }

  /** The way the operation opens is open afterwards. */
  lemma WayOpened(db: Tables, op: Op, user: string, space: string) returns (party: Party, level: nat)
    requires space in db.owners && Raises(db, op, user, space)
    ensures Level(db, user, space) < level <= 3
    ensures Speaks(Effect(db, op), user, party) && Stake(Effect(db, op), space, party, level)
  {
    match op
    case GrantAccess(_, grantee, perm) => party, level := grantee, Rank(perm);
    case ChangeAccess(_, grantee, perm) => party, level := grantee, Rank(perm);
    case AddMember(group, _, _) => party, level := Party("group", group), Level(db, user, space) + 1;
    case OwnerRow(group, _) => party, level := Party("group", group), Level(db, user, space) + 1;
  }

  /** An operation raises a user's level on a living space exactly when the tables before it say so. */
  lemma RaisesExactly(db: Tables, op: Op, user: string, space: string)
    requires space in db.owners
    ensures Level(Effect(db, op), user, space) > Level(db, user, space) && space in Effect(db, op).owners <==> Raises(db, op, user, space)
  {
    var after := Effect(db, op);
    LevelIsMaxRank(db, user, space);
    LevelIsMaxRank(after, user, space);
    if Level(after, user, space) > Level(db, user, space) && space in after.owners {
      RiseIsRaised(db, op, user, space, Level(after, user, space));
    }
    if Raises(db, op, user, space) {
      var party, level := WayOpened(db, op, user, space);
      LevelIsBestPath(after, user, space, level);
    }
  }

  lemma RiseIsRaised(db: Tables, op: Op, user: string, space: string, level: nat)
    requires space in db.owners && level == Level(Effect(db, op), user, space) && Level(db, user, space) < level <= 3
    ensures Raises(db, op, user, space)
  {
    LevelIsBestPath(Effect(db, op), user, space, level);
    LevelIsBestPath(db, user, space, level);
    var party :| Speaks(Effect(db, op), user, party) && Stake(Effect(db, op), space, party, level);
    NewWay(db, op, user, space, party, level);
  }

  /** A step raises a level exactly when it performs an operation that is ready and raises it. */
  predicate StepRaises(s: State, step: Step, user: string, space: string) {
    step.Perform? && step.i < |s.calls| && s.calls[step.i].stage.Ready? && Raises(s.db, s.calls[step.i].op, user, space)
  }

  lemma RiseOpens(s: State, step: Step, user: string, space: string)
    requires Inv(s) && space in s.db.owners
    ensures Level(Apply(s, step).db, user, space) > Level(s.db, user, space) && space in Apply(s, step).db.owners
      <==> StepRaises(s, step, user, space)
  {
    if step.Perform? && step.i < |s.calls| && s.calls[step.i].stage.Ready? {
      RaisesExactly(s.db, s.calls[step.i].op, user, space);
    } else {
      OthersLeaveWays(s, step, space);
      SameWays(s.db, Apply(s, step).db, user, space);
    }
  }

  lemma OthersLeaveWays(s: State, step: Step, space: string)
    requires Inv(s) && space in s.db.owners
    requires !(step.Perform? && step.i < |s.calls| && s.calls[step.i].stage.Ready?)
    ensures var db := Apply(s, step).db;
      && db.roles == s.db.roles && db.access == s.db.access
      && space in db.owners && db.owners[space] == s.db.owners[space]
  {
  }

  /** Groups without members and spaces created elsewhere make no difference. */
  lemma SameWays(db: Tables, after: Tables, user: string, space: string)
    requires after.roles == db.roles && after.access == db.access
    requires space in db.owners && space in after.owners && after.owners[space] == db.owners[space]
    ensures Level(after, user, space) == Level(db, user, space)
  {
    assert UserGroups(after, user) == UserGroups(db, user);
    assert Rows(after, user, space) == Rows(db, user, space);
  }

  /** At step `j` of the run the first check of request `i` passed: the moment its caller was seen to have the right. */
  predicate VettedAt(steps: seq<Step>, j: nat, i: nat, call: Call)
    requires j < |steps|
  {
    var past := Run(steps[..j]);
    steps[j] == Check(i) && i < |past.calls| && past.calls[i] == call.(stage := Checking(0)) && Passes(past.db, call.actor, call.op, 0)
  }

  /** A request becomes vetted in the step that checks it first, or in the first insert of a group's creation. */
  lemma VettedByStep(s: State, step: Step, i: nat)
    requires i < |Apply(s, step).calls| && Vetted(Apply(s, step).calls[i]) && !(i < |s.calls| && Vetted(s.calls[i]))
    requires i < |s.calls| && s.calls[i].op.OwnerRow? && s.calls[i].stage.Checking? ==> s.calls[i].stage == Checking(0)
    ensures var call := Apply(s, step).calls[i];
      if call.op.OwnerRow? then step == CreateGroup(call.op.user, call.op.group)
      else step == Check(i) && i < |s.calls| && s.calls[i] == call.(stage := Checking(0)) && Passes(s.db, call.actor, call.op, 0)
  {
  }

  /** A request that stays vetted keeps caller and operation. */
  lemma VettedStays(s: State, step: Step, i: nat)
    requires i < |s.calls|
    ensures i < |Apply(s, step).calls|
    ensures Apply(s, step).calls[i].(stage := Ready) == s.calls[i].(stage := Ready)
  {
  }

  lemma {:induction false} EveryCallWasVetted(steps: seq<Step>, i: nat) returns (j: nat)
    requires i < |Run(steps).calls| && Vetted(Run(steps).calls[i])
    ensures j < |steps|
    ensures var call := Run(steps).calls[i];
      if call.op.OwnerRow? then steps[j] == CreateGroup(call.op.user, call.op.group) else VettedAt(steps, j, i, call)
  {
    var n := |steps| - 1;
    var before := Run(steps[..n]);
    if i < |before.calls| && Vetted(before.calls[i]) {
      j := EveryCallWasVetted(steps[..n], i);
      VettedStays(before, steps[n], i);
      assert steps[..n][..j] == steps[..j];
    } else {
      j := n;
      NoOwnerRowIsChecked(steps[..n], i);
      VettedByStep(before, steps[n], i);
    }
  }

  lemma {:induction false} NoOwnerRowIsChecked(steps: seq<Step>, i: nat)
    ensures i < |Run(steps).calls| && Run(steps).calls[i].op.OwnerRow? && Run(steps).calls[i].stage.Checking? ==>
      Run(steps).calls[i].stage == Checking(0)
  {
    if steps != [] {
      NoOwnerRowIsChecked(steps[..|steps| - 1], i);
    }
  }

  /**
    If a user's level on a living space is higher after step `k` of a run than before it, step `k` performs an operation
    that raises it, and that operation was vetted at an earlier step `j`: a grant or change asked for by someone who was
    then an admin of the space, an addition to a group with a stake in the space asked for by someone who was then its
    owner or manager, or the user's own creation of a group that has come to such a stake.
   */
  lemma LevelsRiseByAuthority(steps: seq<Step>, k: nat, user: string, space: string) returns (j: nat, call: Call)
    requires k < |steps| && space in Run(steps[..k]).db.owners && space in Run(steps[..k + 1]).db.owners
    requires Level(Run(steps[..k + 1]).db, user, space) > Level(Run(steps[..k]).db, user, space)
    ensures j < k && steps[k].Perform? && steps[k].i < |Run(steps[..k]).calls| && call == Run(steps[..k]).calls[steps[k].i]
    ensures Raises(Run(steps[..k]).db, call.op, user, space)
    ensures
      var past := Run(steps[..j]).db;
      if call.op.OwnerRow? then steps[j] == CreateGroup(user, call.op.group)
      else
        && VettedAt(steps, j, steps[k].i, call)
        && (call.op.AddMember? ==> Manages(past, call.op.group, call.actor))
        && (!call.op.AddMember? ==> (call.op.GrantAccess? || call.op.ChangeAccess?) && Level(past, call.actor, space) == 3)
  {
    assert steps[..k + 1][..k] == steps[..k];
    RunKeeps(steps[..k]);
    RiseOpens(Run(steps[..k]), steps[k], user, space);
    call := Run(steps[..k]).calls[steps[k].i];
    j := EveryCallWasVetted(steps[..k], steps[k].i);
    assert steps[..k][..j] == steps[..j];
    LevelIsMaxRank(Run(steps[..j]).db, call.actor, space);
  }

  // The third way: a stake that reaches a group before its creator's row does.

  /** The first insert of the group's creation is in, the second is not. */
  predicate HalfMade(db: Tables, group: string) {
    group in db.creators && !Role(db, group, db.creators[group], "owner")
  }

  /** The step gives a stake in some space to a group that is half made. */
  predicate StakesEarly(s: State, step: Step) {
    match step
    case CreateGroupSpace(group, _) => HalfMade(s.db, group)
    case Perform(i) =>
      && i < |s.calls| && s.calls[i].stage.Ready? && s.calls[i].op.GrantAccess?
      && s.calls[i].op.grantee.kind == "group" && HalfMade(s.db, s.calls[i].op.grantee.id)
    case _ => false
  }

  predicate WithoutStake(db: Tables, group: string) {
    && (forall space :: space in db.owners ==> db.owners[space] != Party("group", group))
    && (forall k :: k in db.access ==> k.1 != Party("group", group))
  }

  ghost predicate HalfMadeHaveNone(db: Tables) {
    forall group {:trigger HalfMade(db, group)} :: HalfMade(db, group) ==> WithoutStake(db, group)
  }

  lemma HalfMadeBefore(s: State, step: Step, group: string)
    requires Inv(s) && HalfMade(Apply(s, step).db, group) && group in s.groupIds
    ensures HalfMade(s.db, group)
  {
    if step.Perform? && step.i < |s.calls| && s.calls[step.i].stage.Ready? {
      assert CallKept(s.db, s.groupIds, s.calls[step.i]);
      EffectLeavesHalfMade(s.db, s.groupIds, s.calls[step.i].op, group);
    }
  }

  lemma EffectLeavesHalfMade(db: Tables, groupIds: set<string>, op: Op, group: string)
    requires OpKept(db, groupIds, op) && HalfMade(Effect(db, op), group)
    ensures HalfMade(db, group)
  {
    if Headed(db, group) {
      EffectKeepsHead(db, groupIds, op, group);
    }
  }

  lemma StakelessStay(s: State, step: Step, group: string)
    requires Inv(s) && !StakesEarly(s, step) && HalfMade(s.db, group) && WithoutStake(s.db, group)
    ensures WithoutStake(Apply(s, step).db, group)
  {
    if step.Perform? && step.i < |s.calls| && s.calls[step.i].stage.Ready? {
      var op := s.calls[step.i].op;
      forall k | k in Effect(s.db, op).access ensures k.1 != Party("group", group) {
        if k !in s.db.access {
          assert op.GrantAccess? && k == (op.space, op.grantee);
        }
      }
    }
  }

  lemma ApplyKeepsStakeless(s: State, step: Step)
    requires Inv(s) && HalfMadeHaveNone(s.db) && !StakesEarly(s, step)
    ensures HalfMadeHaveNone(Apply(s, step).db)
  {
    forall group | HalfMade(Apply(s, step).db, group) ensures WithoutStake(Apply(s, step).db, group) {
      if group in s.groupIds {
        HalfMadeBefore(s, step, group);
        StakelessStay(s, step, group);
      } else {
        assert step.CreateGroup?;
      }
    }
  }

  ghost predicate NeverStakesEarly(steps: seq<Step>) {
    forall k :: 0 <= k < |steps| ==> !StakesEarly(Run(steps[..k]), steps[k])
  }

  lemma {:induction false} RunKeepsStakeless(steps: seq<Step>)
    requires NeverStakesEarly(steps)
    ensures HalfMadeHaveNone(Run(steps).db)
  {
    if steps != [] {
      var n := |steps| - 1;
      forall k | 0 <= k < n ensures !StakesEarly(Run(steps[..n][..k]), steps[..n][k]) {
        assert steps[..n][..k] == steps[..k];
      }
      RunKeepsStakeless(steps[..n]);
      RunKeeps(steps[..n]);
      ApplyKeepsStakeless(Run(steps[..n]), steps[n]);
    }
  }

  /** In a run that never gives a stake to a half-made group, no second insert raises anyone: only admins, owners and managers do. */
  lemma SecondInsertsRaiseNobody(steps: seq<Step>, i: nat, user: string, space: string)
    requires NeverStakesEarly(steps)
    ensures var s := Run(steps);
      i < |s.calls| && s.calls[i].stage.Ready? && s.calls[i].op.OwnerRow? ==> !Raises(s.db, s.calls[i].op, user, space)
  {
    RunKeeps(steps);
    RunKeepsStakeless(steps);
    var s := Run(steps);
    if i < |s.calls| && s.calls[i].stage.Ready? && s.calls[i].op.OwnerRow? {
      assert CallKept(s.db, s.groupIds, s.calls[i]);
      var op := s.calls[i].op;
      assert HalfMade(s.db, op.group) ==> WithoutStake(s.db, op.group);
    }
  }

  // And it is real: a grant to a group whose creation is still under way.

  lemma RunOn(steps: seq<Step>, step: Step)
    ensures Run(steps + [step]) == Apply(Run(steps), step)
  {
    assert (steps + [step])[..|steps|] == steps;
  }

  function Founding(ann: string, bob: string, space: string, group: string): seq<Step> {
    [CreateSpace(ann, space)] + [CreateGroup(bob, group)]
  }

  function Granting(ann: string, space: string, group: string): Op {
    GrantAccess(space, Party("group", group), "admin")
  }

  function EarlyGrant(ann: string, bob: string, space: string, group: string): seq<Step> {
    Founding(ann, bob, space, group) + [Request(ann, Granting(ann, space, group))] + [Check(1)] + [Check(1)] + [Perform(1)]
  }

  function FoundedTables(ann: string, bob: string, space: string, group: string): Tables {
    Tables(map[group := bob], map[], map[space := Party("user", ann)], map[])
  }

  function FoundedState(ann: string, bob: string, space: string, group: string, calls: seq<Call>): State {
    State(FoundedTables(ann, bob, space, group), [Call(bob, OwnerRow(group, bob), Ready)] + calls, {group}, {space})
  }

  lemma Founded(ann: string, bob: string, space: string, group: string)
    ensures Run(Founding(ann, bob, space, group)) == FoundedState(ann, bob, space, group, [])
  {
    var one := [CreateSpace(ann, space)];
    assert [] + one == one;
    RunOn([], one[0]);
    RunOn(one, CreateGroup(bob, group));
  }

  lemma EarlyGrantIsMade(ann: string, bob: string, space: string, group: string)
    ensures var op := Granting(ann, space, group);
      Run(EarlyGrant(ann, bob, space, group)) == State(
        FoundedTables(ann, bob, space, group).(access := map[(space, Party("group", group)) := "admin"]),
        [Call(bob, OwnerRow(group, bob), Ready), Call(ann, op, Finished)], {group}, {space})
  {
    var (op, first) := (Granting(ann, space, group), Founding(ann, bob, space, group));
    Founded(ann, bob, space, group);
    RunOn(first, Request(ann, op));
    var asked := first + [Request(ann, op)];
    assert Run(asked) == FoundedState(ann, bob, space, group, [Call(ann, op, Checking(0))]);
    OwnerIsAdmin(FoundedTables(ann, bob, space, group), ann, space);
    RunOn(asked, Check(1));
    assert Run(asked + [Check(1)]) == FoundedState(ann, bob, space, group, [Call(ann, op, Checking(1))]);
    RunOn(asked + [Check(1)], Check(1));
    assert Run(asked + [Check(1)] + [Check(1)]) == FoundedState(ann, bob, space, group, [Call(ann, op, Ready)]);
    RunOn(asked + [Check(1)] + [Check(1)], Perform(1));
  }

  /** The creator's level goes from nothing to admin with the second insert, though nobody added them to anything. */
  lemma HalfMadeGroupRaisesItsCreator(ann: string, bob: string, space: string, group: string)
    requires ann != bob
    ensures var steps := EarlyGrant(ann, bob, space, group);
      && Level(Run(steps).db, bob, space) == 0
      && Level(Run(steps + [Perform(0)]).db, bob, space) == 3
  {
    var steps := EarlyGrant(ann, bob, space, group);
    EarlyGrantIsMade(ann, bob, space, group);
    NoWayIn(Run(steps).db, ann, bob, space, group);
    RunOn(steps, Perform(0));
    WayIn(Run(steps + [Perform(0)]).db, bob, space, group);
  }

  lemma NoWayIn(db: Tables, ann: string, bob: string, space: string, group: string)
    requires ann != bob && db.roles == map[] && db.owners == map[space := Party("user", ann)]
    requires db.access == map[(space, Party("group", group)) := "admin"]
    ensures Level(db, bob, space) == 0
  {
    LevelIsBestPath(db, bob, space, 1);
  }

  lemma WayIn(db: Tables, bob: string, space: string, group: string)
    requires Member(db, group, bob) && GrantedAt(db, space, Party("group", group), 3)
    ensures Level(db, bob, space) == 3
  {
    assert Speaks(db, bob, Party("group", group)) && Stake(db, space, Party("group", group), 3);
    LevelIsBestPath(db, bob, space, 3);
    LevelIsMaxRank(db, bob, space);
  }
}
