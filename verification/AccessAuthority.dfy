/**
  Every change to groups, spaces and grants over whole runs: who may make it, that whoever may make it can, and that every
  row that changes in a run goes back to checks its maker passed.
 */
module AccessAuthority {
  import opened ByteStrings
  import opened Permissions
  import opened AccessControl

  // Who may do what, in terms of levels, roles and creators.

  predicate IsAdmin(db: Tables, actor: string, space: string) {
    Level(db, actor, space) == 3
  }

  predicate MayDo(db: Tables, actor: string, op: Op) {
    match op
    case DeleteSpace(space) => IsAdmin(db, actor, space)
    case GrantAccess(space, grantee, perm) =>
      && IsAdmin(db, actor, space) && perm in {"read", "write", "admin"}
      && (grantee.kind == "user" || (grantee.kind == "group" && grantee.id in db.creators))
    case RevokeAccess(space, _) => IsAdmin(db, actor, space)
    case ChangeAccess(space, _, perm) => IsAdmin(db, actor, space) && perm in {"read", "write", "admin"}
    case AddMember(group, _, role) =>
      (group, actor) in db.roles && db.roles[(group, actor)] in {"owner", "manager"} && role in {"manager", "member"}
    case RemoveMember(group, user) =>
      && group in db.creators && db.creators[group] != user && (group, actor) in db.roles
      && (actor == user || db.roles[(group, actor)] in {"owner", "manager"})
    case ChangeRole(group, user, role) =>
      && group in db.creators && db.creators[group] == actor && user != actor
      && (group, user) in db.roles && role in {"manager", "member"}
    case DeleteGroup(group) => group in db.creators && db.creators[group] == actor
    case OwnerRow(_, _) => false
  }

  lemma RequireIsLevel(db: Tables, actor: string, space: string)
    ensures Require(db, actor, space, "admin").Ok? <==> IsAdmin(db, actor, space)
  {
    LevelIsMaxRank(db, actor, space);
  }

  /** All checks of a request pass on one and the same tables exactly when its caller may do it. */
  lemma ChecksAreMayDo(db: Tables, actor: string, op: Op)
    ensures Passes(db, actor, op, 0) && (Checks(op) == 2 ==> Passes(db, actor, op, 1)) <==> MayDo(db, actor, op)
  {
    match op
    case DeleteSpace(space) => RequireIsLevel(db, actor, space);
    case GrantAccess(space, _, _) => RequireIsLevel(db, actor, space);
    case RevokeAccess(space, _) => RequireIsLevel(db, actor, space);
    case ChangeAccess(space, _, _) => RequireIsLevel(db, actor, space);
    case _ =>
  }

  // A request that is left alone.

  function Alone(i: nat, actor: string, op: Op): seq<Step> {
    if Checks(op) == 1 then [Request(actor, op)] + [Check(i)] + [Perform(i)]
    else [Request(actor, op)] + [Check(i)] + [Check(i)] + [Perform(i)]
  }

  lemma CheckedOnce(steps: seq<Step>, actor: string, op: Op, calls: seq<Call>, n: nat, db: Tables)
    requires Run(steps).db == db && Run(steps).calls == calls + [Call(actor, op, Checking(n))]
    ensures var s := Run(steps + [Check(|calls|)]);
      && s.db == db
      && s.calls == calls + [Checked(db, Call(actor, op, Checking(n)))]
      && s.groupIds == Run(steps).groupIds && s.spaceIds == Run(steps).spaceIds
  {
    RunOn(steps, Check(|calls|));
  }

  lemma Finishing(steps: seq<Step>, actor: string, op: Op, calls: seq<Call>, stage: Stage, db: Tables)
    requires Run(steps).db == db && Run(steps).calls == calls + [Call(actor, op, stage)]
    requires stage.Ready? || stage.Finished?
    ensures Run(steps + [Check(|calls|)]) == Run(steps)
    ensures Run(steps + [Perform(|calls|)]).db == if stage.Ready? then Effect(db, op) else db
  {
    RunOn(steps, Check(|calls|));
    RunOn(steps, Perform(|calls|));
  }

  lemma AloneWithOneCheck(asked: seq<Step>, actor: string, op: Op, calls: seq<Call>, db: Tables)
    requires Run(asked).db == db && Run(asked).calls == calls + [Call(actor, op, Checking(0))] && Checks(op) == 1
    ensures Run(asked + [Check(|calls|)] + [Perform(|calls|)]).db == if MayDo(db, actor, op) then Effect(db, op) else db
  {
    CheckedOnce(asked, actor, op, calls, 0, db);
    ChecksAreMayDo(db, actor, op);
    Finishing(asked + [Check(|calls|)], actor, op, calls, Checked(db, Call(actor, op, Checking(0))).stage, db);
  }

  lemma AloneWithTwoChecks(asked: seq<Step>, actor: string, op: Op, calls: seq<Call>, db: Tables)
    requires Run(asked).db == db && Run(asked).calls == calls + [Call(actor, op, Checking(0))] && Checks(op) == 2
    ensures Run(asked + [Check(|calls|)] + [Check(|calls|)] + [Perform(|calls|)]).db == if MayDo(db, actor, op) then Effect(db, op) else db
  {
    CheckedOnce(asked, actor, op, calls, 0, db);
    ChecksAreMayDo(db, actor, op);
    if Passes(db, actor, op, 0) {
      SecondCheck(asked + [Check(|calls|)], actor, op, calls, db);
    } else {
      TurnedAway(asked + [Check(|calls|)], actor, op, calls, db);
    }
  }

  lemma SecondCheck(once: seq<Step>, actor: string, op: Op, calls: seq<Call>, db: Tables)
    requires Run(once).db == db && Run(once).calls == calls + [Call(actor, op, Checking(1))] && Checks(op) == 2
    ensures Run(once + [Check(|calls|)] + [Perform(|calls|)]).db == if Passes(db, actor, op, 1) then Effect(db, op) else db
  {
    CheckedOnce(once, actor, op, calls, 1, db);
    Finishing(once + [Check(|calls|)], actor, op, calls, Checked(db, Call(actor, op, Checking(1))).stage, db);
  }

  lemma TurnedAway(once: seq<Step>, actor: string, op: Op, calls: seq<Call>, db: Tables)
    requires Run(once).db == db && Run(once).calls == calls + [Call(actor, op, Finished)]
    ensures Run(once + [Check(|calls|)] + [Perform(|calls|)]).db == db
  {
    Finishing(once, actor, op, calls, Finished, db);
    Finishing(once + [Check(|calls|)], actor, op, calls, Finished, db);
  }

  /** A request that nothing comes between takes effect exactly when its caller may do it; otherwise no row changes. */
  lemma AloneTakesEffectIffAllowed(steps: seq<Step>, actor: string, op: Op)
    ensures var db := Run(steps).db;
      Run(steps + Alone(|Run(steps).calls|, actor, op)).db == if MayDo(db, actor, op) then Effect(db, op) else db
  {
    var s := Run(steps);
    Asking(steps, actor, op);
    AloneIsAppended(steps, |s.calls|, actor, op);
    AloneOnceAsked(steps + [Request(actor, op)], actor, op, s.calls, s.db);
  }

  lemma Asking(steps: seq<Step>, actor: string, op: Op)
    ensures var s := Run(steps + [Request(actor, op)]);
      s.db == Run(steps).db && s.calls == Run(steps).calls + [Call(actor, op, Checking(0))]
  {
    RunOn(steps, Request(actor, op));
  }

  lemma AloneOnceAsked(asked: seq<Step>, actor: string, op: Op, calls: seq<Call>, db: Tables)
    requires Run(asked).db == db && Run(asked).calls == calls + [Call(actor, op, Checking(0))]
    ensures var all := if Checks(op) == 1 then asked + [Check(|calls|)] + [Perform(|calls|)]
        else asked + [Check(|calls|)] + [Check(|calls|)] + [Perform(|calls|)];
      Run(all).db == if MayDo(db, actor, op) then Effect(db, op) else db
  {
    if Checks(op) == 1 {
      AloneWithOneCheck(asked, actor, op, calls, db);
    } else {
      AloneWithTwoChecks(asked, actor, op, calls, db);
    }
  }

  lemma AloneIsAppended(steps: seq<Step>, i: nat, actor: string, op: Op)
    ensures var asked := steps + [Request(actor, op)];
      steps + Alone(i, actor, op) ==
      if Checks(op) == 1 then asked + [Check(i)] + [Perform(i)] else asked + [Check(i)] + [Check(i)] + [Perform(i)]
  {
  }

  // Creations, which need no check.

  /** A new space that no row of the tables mentions gives its owner, and who speaks for it, everything, and nobody else anything. */
  lemma NewSpaceIsItsOwners(db: Tables, space: string, owner: Party, user: string)
    requires space !in db.owners && forall k :: k in db.access ==> k.0 != space
    ensures Level(db.(owners := db.owners[space := owner]), user, space) == if Speaks(db, user, owner) then 3 else 0
  {
    var after := db.(owners := db.owners[space := owner]);
    LevelIsBestPath(after, user, space, 1);
    LevelIsBestPath(after, user, space, 3);
    forall party ensures Stake(after, space, party, 1) <==> party == owner {
      assert (space, party) !in db.access;
    }
    assert Stake(after, space, owner, 3) && (Speaks(after, user, owner) <==> Speaks(db, user, owner));
  }

  lemma NewSpaceIsUnknown(steps: seq<Step>, space: string)
    requires space !in Run(steps).spaceIds
    ensures var db := Run(steps).db; space !in db.owners && forall k :: k in db.access ==> k.0 != space
  {
    RunKeeps(steps);
    forall k | k in Run(steps).db.access ensures k.0 != space {
      assert GrantKept(Run(steps).db, k);
    }
  }

  /** Creating a space under a new id makes its creator its admin, and leaves everybody else without access. */
  lemma CreatorIsAdmin(steps: seq<Step>, creator: string, space: string, user: string)
    requires space !in Run(steps).spaceIds
    ensures Level(Run(steps + [CreateSpace(creator, space)]).db, user, space) == if user == creator then 3 else 0
  {
    NewSpaceIsUnknown(steps, space);
    RunOn(steps, CreateSpace(creator, space));
    NewSpaceIsItsOwners(Run(steps).db, space, Party("user", creator), user);
  }

  /** Creating one for a group makes the group's members its admins, and leaves everybody else without access. */
  lemma MembersAreAdmins(steps: seq<Step>, group: string, space: string, user: string)
    requires space !in Run(steps).spaceIds && group in Run(steps).groupIds
    ensures Level(Run(steps + [CreateGroupSpace(group, space)]).db, user, space) == if Member(Run(steps).db, group, user) then 3 else 0
  {
    NewSpaceIsUnknown(steps, space);
    RunOn(steps, CreateGroupSpace(group, space));
    NewSpaceIsItsOwners(Run(steps).db, space, Party("group", group), user);
  }

  /** Creating a group under a new id, once both inserts are done, makes its creator its owner and only member. */
  lemma CreatorHeadsTheGroup(steps: seq<Step>, creator: string, group: string, user: string)
    requires group !in Run(steps).groupIds
    ensures var db := Run(steps + [CreateGroup(creator, group)] + [Perform(|Run(steps).calls|)]).db;
      && CreatedBy(db, group, creator)
      && (Member(db, group, user) <==> user == creator) && Role(db, group, creator, "owner")
  {
    var db := Run(steps).db;
    RunKeeps(steps);
    RunOn(steps, CreateGroup(creator, group));
    RunOn(steps + [CreateGroup(creator, group)], Perform(|Run(steps).calls|));
    assert RoleKept(db, group, user) && RoleKept(db, group, creator);
    BothInserts(db, creator, group, user);
  }

  lemma BothInserts(db: Tables, creator: string, group: string, user: string)
    requires (group, user) !in db.roles && (group, creator) !in db.roles
    ensures var after := Effect(db.(creators := db.creators[group := creator]), OwnerRow(group, creator));
      CreatedBy(after, group, creator) && (Member(after, group, user) <==> user == creator) && Role(after, group, creator, "owner")
  {
  }

  /** What each operation leaves in the tables. */
  lemma EffectIsMade(db: Tables, op: Op, k: (string, Party), m: (string, string))
    ensures var after := Effect(db, op);
      match op
      case DeleteSpace(space) =>
        space !in after.owners && (k in after.access <==> k in db.access && k.0 != space) && after.roles == db.roles
      case GrantAccess(space, grantee, perm) =>
        && (space in db.owners ==> (space, grantee) in after.access)
        && (space in db.owners && (space, grantee) !in db.access ==> after.access[(space, grantee)] == perm)
      case RevokeAccess(space, grantee) => k in after.access <==> k in db.access && k != (space, grantee)
      case ChangeAccess(space, grantee, perm) =>
        (space, grantee) in db.access ==> (space, grantee) in after.access && after.access[(space, grantee)] == perm
      case AddMember(group, user, role) =>
        && (group in db.creators ==> (group, user) in after.roles)
        && (group in db.creators && (group, user) !in db.roles ==> after.roles[(group, user)] == role)
      case RemoveMember(group, user) => m in after.roles <==> m in db.roles && m != (group, user)
      case ChangeRole(group, user, role) =>
        (group, user) in db.roles ==> (group, user) in after.roles && after.roles[(group, user)] == role
      case DeleteGroup(group) => group !in after.creators && (m in after.roles <==> m in db.roles && m.0 != group)
      case OwnerRow(group, user) =>
        group in db.creators && (group, user) !in db.roles ==> (group, user) in after.roles && after.roles[(group, user)] == "owner"
  {
  }

  // Every check of a performed request was passed at some step.

  /** At step `j` check `n` of request `i` passed. */
  predicate PassedAt(steps: seq<Step>, j: nat, i: nat, n: nat, call: Call)
    requires j < |steps|
  {
    var past := Run(steps[..j]);
    && steps[j] == Check(i) && i < |past.calls| && past.calls[i] == call.(stage := Checking(n))
    && Passes(past.db, call.actor, call.op, n)
  }

  /** Check `n` lies behind the request. */
  predicate Reached(call: Call, n: nat) {
    call.stage.Ready? || (call.stage.Checking? && call.stage.next > n)
  }

  lemma ReachedByStep(s: State, step: Step, i: nat, n: nat)
    requires i < |Apply(s, step).calls| && n < Checks(Apply(s, step).calls[i].op) && !Apply(s, step).calls[i].op.OwnerRow?
    requires Reached(Apply(s, step).calls[i], n) && !(i < |s.calls| && Reached(s.calls[i], n))
    ensures var call := Apply(s, step).calls[i];
      step == Check(i) && i < |s.calls| && s.calls[i] == call.(stage := Checking(n)) && Passes(s.db, call.actor, call.op, n)
  {
  }

  lemma {:induction false} EveryCheckWasPassed(steps: seq<Step>, i: nat, n: nat) returns (j: nat)
    requires i < |Run(steps).calls| && n < Checks(Run(steps).calls[i].op) && !Run(steps).calls[i].op.OwnerRow?
    requires Reached(Run(steps).calls[i], n)
    ensures j < |steps| && PassedAt(steps, j, i, n, Run(steps).calls[i])
  {
    var last := |steps| - 1;
    var before := Run(steps[..last]);
    if i < |before.calls| && Reached(before.calls[i], n) {
      VettedStays(before, steps[last], i);
      j := EveryCheckWasPassed(steps[..last], i, n);
      assert steps[..last][..j] == steps[..j];
    } else {
      j := last;
      ReachedByStep(before, steps[last], i, n);
    }
  }

  // Row by row: what a step changes, and by whose right.

  /** Step `k` performs `call`, which was asked for by someone who was an admin of the space when its first check ran. */
  predicate ByAdmin(steps: seq<Step>, k: nat, j: nat, call: Call, space: string)
    requires j < k < |steps|
  {
    && PerformedAt(steps, k, call) && PassedAt(steps, j, steps[k].i, 0, call)
    && IsAdmin(Run(steps[..j]).db, call.actor, space)
  }

  predicate PerformedAt(steps: seq<Step>, k: nat, call: Call)
    requires k < |steps|
  {
    var s := Run(steps[..k]);
    steps[k].Perform? && steps[k].i < |s.calls| && s.calls[steps[k].i] == call && call.stage.Ready?
  }

  function StateAt(steps: seq<Step>, k: nat): State
    requires k <= |steps|
  {
    Run(steps[..k])
  }

  lemma NextState(steps: seq<Step>, k: nat)
    requires k < |steps|
    ensures StateAt(steps, k + 1) == Apply(StateAt(steps, k), steps[k])
  {
    assert steps[..k + 1][..k] == steps[..k];
  }

  /** The check a performed request passed, at a step of the whole run. */
  lemma PerformedWasChecked(steps: seq<Step>, k: nat, call: Call, n: nat) returns (j: nat)
    requires k < |steps| && PerformedAt(steps, k, call) && !call.op.OwnerRow? && n < Checks(call.op)
    ensures j < k && PassedAt(steps, j, steps[k].i, n, call)
  {
    j := EveryCheckWasPassed(steps[..k], steps[k].i, n);
    assert steps[..k][..j] == steps[..j];
  }

  lemma AdminPerformed(steps: seq<Step>, k: nat, call: Call, space: string) returns (j: nat)
    requires k < |steps| && PerformedAt(steps, k, call)
    requires call.op in {DeleteSpace(space)} || ((call.op.GrantAccess? || call.op.RevokeAccess? || call.op.ChangeAccess?) && call.op.space == space)
    ensures j < k && ByAdmin(steps, k, j, call, space)
  {
    j := PerformedWasChecked(steps, k, call, 0);
    RequireIsLevel(Run(steps[..j]).db, call.actor, space);
  }

  /** A row other than a new space or group changes only in a step that performs a request. */
  lemma ChangesArePerformed(steps: seq<Step>, k: nat) returns (call: Call)
    requires k < |steps|
    requires var (before, after) := (StateAt(steps, k).db, StateAt(steps, k + 1).db);
      after.access != before.access || after.roles != before.roles
      || !(before.owners.Keys <= after.owners.Keys) || !(before.creators.Keys <= after.creators.Keys)
    ensures PerformedAt(steps, k, call) && StateAt(steps, k + 1).db == Effect(StateAt(steps, k).db, call.op)
  {
    NextState(steps, k);
    call := StateAt(steps, k).calls[steps[k].i];
  }

  /** A space goes only by a deletion asked for by someone who was its admin. */
  lemma SpacesGoByAdmins(steps: seq<Step>, k: nat, space: string) returns (j: nat, call: Call)
    requires k < |steps| && space in StateAt(steps, k).db.owners && space !in StateAt(steps, k + 1).db.owners
    ensures j < k && call.op == DeleteSpace(space) && ByAdmin(steps, k, j, call, space)
  {
    call := ChangesArePerformed(steps, k);
    j := AdminPerformed(steps, k, call, space);
  }

  predicate SameGrant(a: Tables, b: Tables, key: (string, Party)) {
    (key in a.access <==> key in b.access) && (key in a.access ==> a.access[key] == b.access[key])
  }

  /** The operations on one grant, alone or with its space. */
  predicate OnGrant(op: Op, space: string, party: Party) {
    || op == DeleteSpace(space) || op == RevokeAccess(space, party)
    || (op.GrantAccess? && op.space == space && op.grantee == party)
    || (op.ChangeAccess? && op.space == space && op.grantee == party)
  }

  lemma GrantChangesByItsOps(db: Tables, op: Op, space: string, party: Party)
    requires !SameGrant(db, Effect(db, op), (space, party))
    ensures OnGrant(op, space, party)
  {
  }

  /** A grant comes, goes or changes only by an operation on it, or with its space, asked for by an admin of the space. */
  lemma GrantsChangeByAdmins(steps: seq<Step>, k: nat, space: string, party: Party) returns (j: nat, call: Call)
    requires k < |steps| && !SameGrant(StateAt(steps, k).db, StateAt(steps, k + 1).db, (space, party))
    ensures j < k && ByAdmin(steps, k, j, call, space) && OnGrant(call.op, space, party)
    ensures StateAt(steps, k + 1).db == Effect(StateAt(steps, k).db, call.op)
  {
    call := ChangesArePerformed(steps, k);
    GrantChangesByItsOps(StateAt(steps, k).db, call.op, space, party);
    j := AdminPerformed(steps, k, call, space);
  }

  predicate SameRole(a: Tables, b: Tables, key: (string, string)) {
    (key in a.roles <==> key in b.roles) && (key in a.roles ==> a.roles[key] == b.roles[key])
  }

  /** Step `k` performs `call`, whose check `n` passed at step `j`. */
  predicate ByCheck(steps: seq<Step>, k: nat, j: nat, n: nat, call: Call)
    requires j < k < |steps|
  {
    PerformedAt(steps, k, call) && PassedAt(steps, j, steps[k].i, n, call)
  }

  /** A group goes only by a deletion asked for by its creator. */
  lemma GroupsGoByTheirCreators(steps: seq<Step>, k: nat, group: string) returns (j: nat, call: Call)
    requires k < |steps| && group in StateAt(steps, k).db.creators && group !in StateAt(steps, k + 1).db.creators
    ensures j < k && ByCheck(steps, k, j, 0, call) && call.op == DeleteGroup(group)
    ensures CreatedBy(StateAt(steps, j).db, group, call.actor)
  {
    call := ChangesArePerformed(steps, k);
    j := PerformedWasChecked(steps, k, call, 0);
  }

  /**
    A membership comes by an owner or manager of the group or with its creation; it goes by the member, an owner or a
    manager, or with the group by its creator; its role changes by the creator. The creator's own goes only with the group.
   */
  lemma RolesChangeByRight(steps: seq<Step>, k: nat, group: string, user: string) returns (j: nat, call: Call)
    requires k < |steps| && !SameRole(StateAt(steps, k).db, StateAt(steps, k + 1).db, (group, user))
    ensures PerformedAt(steps, k, call) && StateAt(steps, k + 1).db == Effect(StateAt(steps, k).db, call.op)
    ensures match call.op
      case OwnerRow(g, u) => g == group && u == user && j < k && steps[j] == CreateGroup(user, group)
      case AddMember(g, u, role) =>
        && g == group && u == user && role in {"manager", "member"}
        && j < k && ByCheck(steps, k, j, 0, call) && Manages(StateAt(steps, j).db, group, call.actor)
      case RemoveMember(g, u) =>
        && g == group && u == user && !CreatedBy(StateAt(steps, k).db, group, user)
        && j < k && ByCheck(steps, k, j, 1, call)
        && (call.actor == user || Manages(StateAt(steps, j).db, group, call.actor))
      case ChangeRole(g, u, role) =>
        && g == group && u == user && role in {"manager", "member"} && !CreatedBy(StateAt(steps, k).db, group, user)
        && j < k && ByCheck(steps, k, j, 0, call) && CreatedBy(StateAt(steps, j).db, group, call.actor)
      case DeleteGroup(g) =>
        g == group && j < k && ByCheck(steps, k, j, 0, call) && CreatedBy(StateAt(steps, j).db, group, call.actor)
      case _ => false
  {
    call := ChangesArePerformed(steps, k);
    RunKeeps(steps[..k]);
    assert CallKept(StateAt(steps, k).db, StateAt(steps, k).groupIds, call);
    if call.op.OwnerRow? {
      j := EveryCallWasVetted(steps[..k], steps[k].i);
    } else {
      j := PerformedWasChecked(steps, k, call, if call.op.RemoveMember? then 1 else 0);
    }
  }

  // Falls of a level.

  /** What a user loses a level by: a grant of a party they spoke for, or their place in a group with a stake. */
  lemma FallHasACause(db: Tables, after: Tables, user: string, space: string) returns (party: Party)
    requires space in db.owners && space in after.owners && after.owners[space] == db.owners[space]
    requires Level(after, user, space) < Level(db, user, space)
    ensures Speaks(db, user, party)
    ensures ((space, party) in db.access && !SameGrant(db, after, (space, party)))
      || (party.kind == "group" && Member(db, party.id, user) && !Member(after, party.id, user))
  {
    var level := Level(db, user, space);
    LevelIsMaxRank(db, user, space);
    LevelIsBestPath(db, user, space, level);
    LevelIsBestPath(after, user, space, level);
    party :| Speaks(db, user, party) && Stake(db, space, party, level);
    assert !(Speaks(after, user, party) && Stake(after, space, party, level));
  }

  /** A grant that was there and is not the same on a space that lives was revoked or changed by an admin. */
  lemma GrantsAreCutByAdmins(steps: seq<Step>, k: nat, space: string, party: Party) returns (j: nat, call: Call)
    requires k < |steps| && space in StateAt(steps, k + 1).db.owners && (space, party) in StateAt(steps, k).db.access
    requires !SameGrant(StateAt(steps, k).db, StateAt(steps, k + 1).db, (space, party))
    ensures j < k && ByAdmin(steps, k, j, call, space)
    ensures (call.op.RevokeAccess? || call.op.ChangeAccess?) && call.op.space == space
  {
    j, call := GrantsChangeByAdmins(steps, k, space, party);
  }

  /** A membership that goes was ended by the member, an owner or manager, or with the group by its creator. */
  lemma MembershipsEndByRight(steps: seq<Step>, k: nat, group: string, user: string) returns (j: nat, call: Call)
    requires k < |steps| && Member(StateAt(steps, k).db, group, user) && !Member(StateAt(steps, k + 1).db, group, user)
    ensures j < k && PerformedAt(steps, k, call)
    ensures match call.op
      case RemoveMember(g, removed) =>
        && g == group && removed == user && ByCheck(steps, k, j, 1, call)
        && (call.actor == user || Manages(StateAt(steps, j).db, group, call.actor))
      case DeleteGroup(g) => g == group && ByCheck(steps, k, j, 0, call) && CreatedBy(StateAt(steps, j).db, group, call.actor)
      case _ => false
  {
    j, call := RolesChangeByRight(steps, k, group, user);
  }

  /** A level falls by one of the two. */
  predicate LowersByRight(steps: seq<Step>, k: nat, j: nat, call: Call, user: string, space: string)
    requires j < k < |steps|
  {
    match call.op
    case RevokeAccess(revoked, _) => revoked == space && ByAdmin(steps, k, j, call, space)
    case ChangeAccess(changed, _, _) => changed == space && ByAdmin(steps, k, j, call, space)
    case RemoveMember(group, removed) =>
      && removed == user && ByCheck(steps, k, j, 1, call)
      && (call.actor == user || Manages(StateAt(steps, j).db, group, call.actor))
    case DeleteGroup(group) => ByCheck(steps, k, j, 0, call) && CreatedBy(StateAt(steps, j).db, group, call.actor)
    case _ => false
  }

  /**
    A user's level on a living space falls only by a grant taken back or changed by an admin of the space, by their removal
    from a group by themselves, an owner or a manager, or by a group's deletion by its creator.
   */
  lemma LevelsFallByAuthority(steps: seq<Step>, k: nat, user: string, space: string) returns (j: nat, call: Call)
    requires k < |steps| && space in StateAt(steps, k).db.owners && space in StateAt(steps, k + 1).db.owners
    requires Level(StateAt(steps, k + 1).db, user, space) < Level(StateAt(steps, k).db, user, space)
    ensures j < k && LowersByRight(steps, k, j, call, user, space)
  {
    var (before, after) := (StateAt(steps, k).db, StateAt(steps, k + 1).db);
    OwnerIsKept(steps, k, space);
    var party := FallHasACause(before, after, user, space);
    if (space, party) in before.access && !SameGrant(before, after, (space, party)) {
      j, call := GrantsAreCutByAdmins(steps, k, space, party);
    } else {
      j, call := MembershipsEndByRight(steps, k, party.id, user);
    }
  }

  lemma OwnerIsKept(steps: seq<Step>, k: nat, space: string)
    requires k < |steps| && space in StateAt(steps, k).db.owners && space in StateAt(steps, k + 1).db.owners
    ensures StateAt(steps, k + 1).db.owners[space] == StateAt(steps, k).db.owners[space]
  {
    NextState(steps, k);
    RunKeeps(steps[..k]);
    OwnerStays(StateAt(steps, k), steps[k], space);
  }
}
