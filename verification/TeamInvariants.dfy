/** What every reachable state keeps about accounts, teams and memberships. */
module TeamInvariants {
  import opened Basics
  import opened Schema
  import opened Database
  import opened TeamRoutes
  import opened SubmitRoute
  import opened AuthRoutes
  import opened AdminRoutes
  import opened Contest
  import opened WriteSets

  type Teams = map<Id, Team>
  type Members = map<Id, Membership>

  /** One owner and between 1 and 100 members in every team, and nobody on a team that is not there. */
  ghost predicate TeamShape(teams: Teams, members: Members) {
    && (forall u :: u in members ==> members[u].team in teams)
    && (forall t :: t in teams ==>
          |OwnersOf(members, t)| == 1 && 1 <= |MembersOf(members, t)| <= MAX_MEMBERS_PER_TEAM)
  }

  /** The unique indexes on names and invites, and freshness of everything drawn so far. */
  ghost predicate TeamKeys(users: map<Id, User>, teams: Teams, members: Members, next: nat) {
    && (forall u :: u in users ==> u < next)
    && (forall u :: u in members ==> u in users)
    && (forall t :: t in teams ==> t < next && teams[t].invite < next && teams[t].creator in users)
    && (forall t, s :: t in teams && s in teams && t != s ==>
          teams[t].invite != teams[s].invite && teams[t].name.folded != teams[s].name.folded)
  }

  ghost predicate AccountKeys(users: map<Id, User>) {
    && (forall u, v :: u in users && v in users && u != v ==>
          users[u].email.folded != users[v].email.folded && users[u].username.folded != users[v].username.folded)
    && |Participants(users)| <= MAX_PARTICIPANT_USERS
  }

  ghost predicate MutationsCapped(audits: seq<Audit>) {
    forall u :: Mutations(audits, u) <= MAX_TEAM_MUTATIONS_PER_USER_EVENT
  }

  ghost predicate TeamInv(db: Db) {
    && TeamShape(db.roster.teams, db.roster.members)
    && TeamKeys(db.accounts.users, db.roster.teams, db.roster.members, db.next)
    && AccountKeys(db.accounts.users)
    && MutationsCapped(db.roster.audits)
  }

  // ---------- membership arithmetic ----------

  lemma FoundTeam(teams: Teams, members: Members, team: Id, t: Team, user: Id)
    requires TeamShape(teams, members) && team !in teams && user !in members
    ensures TeamShape(teams[team := t], members[user := Membership(team, Owner)])
  {
    var members' := members[user := Membership(team, Owner)];
    assert MembersOf(members', team) == {user} && OwnersOf(members', team) == {user};
    forall s | s in teams
      ensures MembersOf(members', s) == MembersOf(members, s) && OwnersOf(members', s) == OwnersOf(members, s)
    {
    }
  }

  lemma Enrol(teams: Teams, members: Members, team: Id, user: Id)
    requires TeamShape(teams, members) && team in teams && user !in members
    requires |MembersOf(members, team)| < MAX_MEMBERS_PER_TEAM
    ensures TeamShape(teams, members[user := Membership(team, Member)])
  {
    var members' := members[user := Membership(team, Member)];
    assert MembersOf(members', team) == MembersOf(members, team) + {user};
    assert OwnersOf(members', team) == OwnersOf(members, team);
    forall s | s in teams && s != team
      ensures MembersOf(members', s) == MembersOf(members, s) && OwnersOf(members', s) == OwnersOf(members, s)
    {
    }
  }

  lemma SoleOwner(members: Members, team: Id, user: Id)
    requires |OwnersOf(members, team)| == 1 && user in members && members[user] == Membership(team, Owner)
    ensures OwnersOf(members, team) == {user}
  {
    SubsetCardinality({user}, OwnersOf(members, team));
  }

  /** Changing roles within a team moves nobody. */
  lemma HandedOver(members: Members, team: Id, actor: Id, target: Id, s: Id)
    requires actor != target && actor in members && members[actor] == Membership(team, Owner)
    requires target in members && members[target] == Membership(team, Member) && |OwnersOf(members, team)| == 1
    ensures var members' := members[actor := Membership(team, Member)][target := Membership(team, Owner)];
            && MembersOf(members', s) == MembersOf(members, s)
            && OwnersOf(members', s) == if s == team then {target} else OwnersOf(members, s)
  {
    var members' := members[actor := Membership(team, Member)][target := Membership(team, Owner)];
    SoleOwner(members, team, actor);
    if s == team {
      forall u ensures u in OwnersOf(members', team) <==> u == target {
        assert u in OwnersOf(members, team) <==> u == actor;
      }
      assert OwnersOf(members', team) == {target};
    }
  }

  lemma HandOver(teams: Teams, members: Members, team: Id, actor: Id, target: Id)
    requires TeamShape(teams, members) && actor != target
    requires actor in members && members[actor] == Membership(team, Owner)
    requires target in members && members[target] == Membership(team, Member)
    ensures TeamShape(teams, members[actor := Membership(team, Member)][target := Membership(team, Owner)])
  {
    hide MembersOf, OwnersOf;
    forall s | s in teams
      ensures var members' := members[actor := Membership(team, Member)][target := Membership(team, Owner)];
              |OwnersOf(members', s)| == 1 && 1 <= |MembersOf(members', s)| <= MAX_MEMBERS_PER_TEAM
    {
      HandedOver(members, team, actor, target, s);
    }
  }

  lemma Dismiss(teams: Teams, members: Members, team: Id, user: Id)
    requires TeamShape(teams, members) && user in members && members[user] == Membership(team, Member)
    ensures TeamShape(teams, members - {user})
  {
    var members' := members - {user};
    assert MembersOf(members', team) == MembersOf(members, team) - {user};
    assert OwnersOf(members', team) == OwnersOf(members, team);
    SubsetCardinality(OwnersOf(members', team), MembersOf(members', team));
    forall s | s in teams && s != team
      ensures MembersOf(members', s) == MembersOf(members, s) && OwnersOf(members', s) == OwnersOf(members, s)
    {
    }
  }

  lemma Disband(teams: Teams, members: Members, team: Id, user: Id)
    requires TeamShape(teams, members) && user in members && members[user] == Membership(team, Owner)
    requires |MembersOf(members, team)| <= 1
    ensures TeamShape(teams - {team}, members - {user})
  {
    var members' := members - {user};
    SubsetCardinality({user}, MembersOf(members, team));
    assert MembersOf(members, team) == {user};
    forall u | u in members' ensures members'[u].team in teams - {team} {
      assert u !in MembersOf(members, team);
    }
    forall s | s in teams && s != team
      ensures MembersOf(members', s) == MembersOf(members, s) && OwnersOf(members', s) == OwnersOf(members, s)
    {
    }
  }

  lemma Reinvite(teams: Teams, members: Members, team: Id, invite: nat)
    requires TeamShape(teams, members) && team in teams
    ensures TeamShape(teams[team := teams[team].(invite := invite)], members)
  {
  }

  lemma MutationsAppend(audits: seq<Audit>, row: Audit)
    requires MutationsCapped(audits)
    requires row.action == SoloCreated || Mutations(audits, row.actor) < MAX_TEAM_MUTATIONS_PER_USER_EVENT
    ensures MutationsCapped(audits + [row])
  {
    assert (audits + [row])[..|audits|] == audits;
  }

  // ---------- the handlers keep it ----------

  lemma CreateTeamKeeps(db: Db, r: nat, name: Name)
    requires TeamInv(db)
    ensures TeamInv(CreateTeam(db, r, name).0)
  {
    hide TeamShape, MembersOf, OwnersOf, Mutations, MutationsCapped, AccountKeys;
    var db' := CreateTeam(db, r, name).0;
    if db' != db {
      var user := Enter(db, r).value;
      FoundTeam(db.roster.teams, db.roster.members, db.next, Team(name, db.next + 1, user), user);
      MutationsAppend(db.roster.audits, Audit(user, Created));
    }
  }

  lemma JoinTeamKeeps(db: Db, r: nat, invite: nat)
    requires TeamInv(db)
    ensures TeamInv(JoinTeam(db, r, invite).0)
  {
    hide TeamShape, MembersOf, OwnersOf, Mutations, MutationsCapped, AccountKeys;
    var db' := JoinTeam(db, r, invite).0;
    if db' != db {
      var user := Enter(db, r).value;
      Enrol(db.roster.teams, db.roster.members, TeamWithInvite(db.roster.teams, invite).value, user);
      MutationsAppend(db.roster.audits, Audit(user, Joined));
    }
  }

  lemma RotateInviteKeeps(db: Db, r: nat)
    requires TeamInv(db)
    ensures TeamInv(RotateInvite(db, r).0)
  {
    hide TeamShape, MembersOf, OwnersOf, Mutations, MutationsCapped, AccountKeys;
    var db' := RotateInvite(db, r).0;
    if db' != db {
      var user := Enter(db, r).value;
      Reinvite(db.roster.teams, db.roster.members, db.roster.members[user].team, db.next);
      MutationsAppend(db.roster.audits, Audit(user, InviteRotated));
    }
  }

  lemma TransferOwnerKeeps(db: Db, r: nat, target: Id)
    requires TeamInv(db)
    ensures TeamInv(TransferOwner(db, r, target).0)
  {
    hide TeamShape, MembersOf, OwnersOf, Mutations, MutationsCapped, AccountKeys;
    var db' := TransferOwner(db, r, target).0;
    if db' != db {
      var p := OwnerAndTarget(db, r, target).value;
      HandOver(db.roster.teams, db.roster.members, p.team, p.actor, target);
      MutationsAppend(db.roster.audits, Audit(p.actor, OwnerTransferred));
    }
  }

  lemma RemoveMemberKeeps(db: Db, r: nat, target: Id)
    requires TeamInv(db)
    ensures TeamInv(RemoveMember(db, r, target).0)
  {
    hide TeamShape, MembersOf, OwnersOf, Mutations, MutationsCapped, AccountKeys;
    var db' := RemoveMember(db, r, target).0;
    if db' != db {
      var p := OwnerAndTarget(db, r, target).value;
      Dismiss(db.roster.teams, db.roster.members, p.team, target);
      Reinvite(db.roster.teams, db.roster.members - {target}, p.team, db.next);
      MutationsAppend(db.roster.audits, Audit(p.actor, MemberRemoved));
    }
  }

  lemma LeaveTeamKeeps(db: Db, r: nat)
    requires TeamInv(db)
    ensures TeamInv(LeaveTeam(db, r).0)
  {
    hide TeamShape, MembersOf, OwnersOf, Mutations, MutationsCapped, AccountKeys;
    var db' := LeaveTeam(db, r).0;
    if db' != db {
      var user := Enter(db, r).value;
      var m := db.roster.members[user];
      MutationsAppend(db.roster.audits, Audit(user, Left));
      if m.role == Owner {
        Disband(db.roster.teams, db.roster.members, m.team, user);
      } else {
        Dismiss(db.roster.teams, db.roster.members, m.team, user);
      }
    }
  }

  lemma AddUser(users: map<Id, User>, id: Id, u: User)
    requires AccountKeys(users) && id !in users && !AccountTaken(users, u.email, u.username)
    requires |Participants(users)| < MAX_PARTICIPANT_USERS
    ensures AccountKeys(users[id := u])
  {
    AddParticipant(users, id, u);
    hide Participants;
    var users' := users[id := u];
    forall v | v in users
      ensures users[v].email.folded != u.email.folded && users[v].username.folded != u.username.folded
    {
    }
  }

  lemma AddParticipant(users: map<Id, User>, id: Id, u: User)
    requires id !in users
    ensures |Participants(users[id := u])| <= |Participants(users)| + 1
  {
    SubsetCardinality(Participants(users[id := u]), Participants(users) + {id});
  }

  lemma RegisterFinishKeeps(db: Db, r: nat, suffix: string)
    requires TeamInv(db)
    ensures TeamInv(RegisterFinish(db, r, suffix).0)
  {
    hide TeamShape, MembersOf, OwnersOf, Mutations, MutationsCapped, AccountKeys, AddSession, UseCode;
    var db' := RegisterFinish(db, r, suffix).0;
    if db' != db {
      var f := db.flights[r];
      var user := db.next;
      AddUser(db.accounts.users, user, db'.accounts.users[user]);
      if db.event.mode == Individual {
        FoundTeam(db.roster.teams, db.roster.members, db.next + 1, db'.roster.teams[db.next + 1], user);
        MutationsAppend(db.roster.audits, Audit(user, SoloCreated));
      }
    }
  }

  /** Of an account, everything else changes only its credentials, and teams it leaves alone. */
  lemma OthersKeep(db: Db, db': Db)
    requires TeamInv(db) && db'.roster == db.roster && db.next <= db'.next
             && AccountsAge(db.accounts.users, db'.accounts.users)
    ensures TeamInv(db')
  {
    hide TeamShape, MutationsCapped;
    assert Participants(db'.accounts.users) == Participants(db.accounts.users);
  }

  lemma TeamRoutesKeep(db: Db, c: Command)
    requires TeamInv(db) && OnTeams(c)
    ensures TeamInv(HandleTeams(db, c).0)
  {
    hide TeamInv, CreateTeam, JoinTeam, RotateInvite, TransferOwner, RemoveMember, LeaveTeam;
    match c
    case DoCreateTeam(r, name) => CreateTeamKeeps(db, r, name);
    case DoJoinTeam(r, invite) => JoinTeamKeeps(db, r, invite);
    case DoRotateInvite(r) => RotateInviteKeeps(db, r);
    case DoTransferOwner(r, target) => TransferOwnerKeeps(db, r, target);
    case DoRemoveMember(r, target) => RemoveMemberKeeps(db, r, target);
    case DoLeaveTeam(r) => LeaveTeamKeeps(db, r);
  }

  lemma HandleKeepsTeams(db: Db, c: Command)
    requires TeamInv(db)
    ensures TeamInv(Handle(db, c).0)
  {
    hide Handle, HandleTeams, HandleBegin, HandleAccounts, HandleSetup, RegisterFinish, LoginAttempt, PasswordAttempt,
         SubmitFlag, UpdateEvent, TeamInv, AccountsAge;
    HandleIs(db, c);
    if OnTeams(c) {
      TeamRoutesKeep(db, c);
    } else if c.DoRegisterFinish? {
      RegisterFinishKeeps(db, c.r, c.suffix);
    } else {
      HandleWrites(db, c);
      HandleAges(db, c);
      OthersKeep(db, Handle(db, c).0);
    }
  }

  lemma StepKeepsTeams(db: Db, c: Command)
    requires TeamInv(db)
    ensures TeamInv(Step(db, c))
  {
    hide Handle, Step, TeamShape, AccountKeys, MutationsCapped;
    HandleKeepsTeams(db, c);
    StepCloses(db, c);
  }

  lemma {:induction false} RunKeepsTeams(db: Db, commands: seq<Command>)
    requires TeamInv(db)
    ensures TeamInv(Run(db, commands))
  {
    hide Step, TeamInv;
    if commands != [] {
      RunKeepsTeams(db, commands[..|commands| - 1]);
      StepKeepsTeams(Run(db, commands[..|commands| - 1]), commands[|commands| - 1]);
    }
  }

  lemma BootstrappedTeams(db: Db)
    requires Bootstrapped(db)
    ensures TeamInv(db)
  {
    assert Participants(db.accounts.users) == {};
  }

  /** Over all runs: every team has exactly one owner and 1 to 100 members, members exist and are on
      existing teams, nobody changes teams more than 100 times, accounts stay unique and within the cap. */
  lemma TeamsAlwaysWellFormed(db: Db, commands: seq<Command>)
    requires Bootstrapped(db)
    ensures TeamInv(Run(db, commands))
  {
    BootstrappedTeams(db);
    RunKeepsTeams(db, commands);
  }

  // ---------- a replaced invite is worthless ----------

  /** Every invite is the one its team had before or was drawn just now. */
  ghost predicate InvitesDrawn(before: Teams, after: Teams, next: nat) {
    forall t :: t in after ==> (t in before && after[t].invite == before[t].invite) || after[t].invite >= next
  }

  lemma TeamRoutesDrawInvites(db: Db, c: Command)
    requires OnTeams(c)
    ensures InvitesDrawn(db.roster.teams, HandleTeams(db, c).0.roster.teams, db.next)
  {
    hide Enter, OwnTeam, OwnerAndTarget, NameTaken, MembersOf, MemberSubmitted, TeamSubmitted, DropTeam, TeamWithInvite;
  }

  lemma RegisterFinishDrawsInvites(db: Db, r: nat, suffix: string)
    ensures InvitesDrawn(db.roster.teams, RegisterFinish(db, r, suffix).0.roster.teams, db.next)
  {
    hide MayRegister, NameTaken, AddSession, UseCode;
  }

  lemma HandleDrawsInvites(db: Db, c: Command)
    ensures InvitesDrawn(db.roster.teams, Handle(db, c).0.roster.teams, db.next)
  {
    hide Handle, HandleTeams, HandleBegin, HandleAccounts, HandleSetup, RegisterFinish, LoginAttempt, PasswordAttempt,
         SubmitFlag, UpdateEvent;
    HandleIs(db, c);
    if OnTeams(c) {
      TeamRoutesDrawInvites(db, c);
    } else if c.DoRegisterFinish? {
      RegisterFinishDrawsInvites(db, c.r, c.suffix);
    } else {
      HandleWrites(db, c);
    }
  }

  /** No team answers to the invite, and it will not be drawn again. */
  ghost predicate Retired(db: Db, invite: nat) {
    invite < db.next && forall t :: t in db.roster.teams ==> db.roster.teams[t].invite != invite
  }

  lemma StepKeepsRetired(db: Db, c: Command, invite: nat)
    requires Retired(db, invite)
    ensures Retired(Step(db, c), invite)
  {
    hide Handle, Step;
    HandleDrawsInvites(db, c);
    HandleWrites(db, c);
    StepCloses(db, c);
  }

  lemma {:induction false} RunKeepsRetired(db: Db, commands: seq<Command>, invite: nat)
    requires Retired(db, invite)
    ensures Retired(Run(db, commands), invite)
  {
    hide Step, Retired;
    if commands != [] {
      RunKeepsRetired(db, commands[..|commands| - 1], invite);
      StepKeepsRetired(Run(db, commands[..|commands| - 1]), commands[|commands| - 1], invite);
    }
  }

  /** The invite of the actor's team. */
  function InviteOf(db: Db, r: nat): nat
    requires r in db.flights && db.flights[r].Authenticated?
    requires db.flights[r].user in db.roster.members
    requires db.roster.members[db.flights[r].user].team in db.roster.teams
  {
    db.roster.teams[db.roster.members[db.flights[r].user].team].invite
  }

  /** Rotating an invite or removing a member answers with the new invite; the old one has no team left. */
  lemma ReplacingRetires(db: Db, c: Command, r: nat)
    requires TeamInv(db) && (c == DoRotateInvite(r) || (c.DoRemoveMember? && c.r == r)) && Handle(db, c).1.Invite?
    ensures r in db.flights && db.flights[r].Authenticated? && db.flights[r].user in db.roster.members
    ensures db.roster.members[db.flights[r].user].team in db.roster.teams
    ensures Retired(Handle(db, c).0, InviteOf(db, r))
  {
    hide TeamShape, AccountKeys, MutationsCapped, Mutations, MemberSubmitted;
  }

  /** Over every later run the replaced invite admits nobody, not even the member it was replaced for. */
  lemma ReplacedInviteNeverAdmits(db: Db, c: Command, r: nat, later: seq<Command>, q: nat)
    requires TeamInv(db) && (c == DoRotateInvite(r) || (c.DoRemoveMember? && c.r == r)) && Handle(db, c).1.Invite?
    ensures r in db.flights && db.flights[r].Authenticated? && db.flights[r].user in db.roster.members
    ensures db.roster.members[db.flights[r].user].team in db.roster.teams
    ensures var end := Run(Step(db, c), later); var (end', answer) := JoinTeam(end, q, InviteOf(db, r));
            answer.Refused? && end' == end
  {
    hide Handle, Step, Enter, TeamInv, InviteOf;
    ReplacingRetires(db, c, r);
    StepCloses(db, c);
    RunKeepsRetired(Step(db, c), later, InviteOf(db, r));
  }
}
