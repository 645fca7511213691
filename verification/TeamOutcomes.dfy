/** What each of the six team changes comes to: when it is refused and how, and otherwise whose membership, which team
    and which invite it changes, and that it changes no other. */
module TeamOutcomes {
  import opened Basics
  import opened Schema
  import opened Services
  import opened Database
  import opened TeamRoutes
  import opened TeamInvariants

  /** Registration is open at this instant. */
  predicate TakesRegistrations(event: Event, now: Time) {
    && event.state == Registration
    && (event.registrationAt.Some? ==> event.registrationAt.value <= now)
    && (event.endAt.Some? ==> now < event.endAt.value)
  }

  /** The team changes of a user that count towards the lifetime limit: all but the founding of a personal team. */
  function Changes(audits: seq<Audit>, user: Id): set<nat> {
    set i: nat | i < |audits| && audits[i].actor == user && audits[i].action != SoloCreated
  }

  lemma {:induction false} ChangesAreCounted(audits: seq<Audit>, user: Id)
    ensures |Changes(audits, user)| == Mutations(audits, user)
  {
    if audits != [] {
      var n := |audits| - 1;
      ChangesAreCounted(audits[..n], user);
      assert Changes(audits, user)
             == Changes(audits[..n], user)
                + (if audits[n].actor == user && audits[n].action != SoloCreated then {n} else {});
    }
  }

  /** The account of an authenticated request is active and still of the generation it authenticated with. */
  predicate AccountStands(db: Db, f: Flight)
    requires f.Authenticated?
  {
    && f.user in db.accounts.users && db.accounts.users[f.user].active
    && db.accounts.users[f.user].version == f.version
  }

  /** The request may change teams at all. */
  predicate MayChangeTeams(db: Db, r: nat) {
    && r in db.flights && db.flights[r].Authenticated? && db.event.mode == Teams
    && TakesRegistrations(db.event, db.now) && AccountStands(db, db.flights[r])
    && |Changes(db.roster.audits, db.flights[r].user)| < 100
  }

  function Why(db: Db, r: nat): Error
    requires !MayChangeTeams(db, r)
  {
    if r !in db.flights || !db.flights[r].Authenticated? then InvalidSession
    else if db.event.mode == Individual then IndividualModeActive
    else if !TakesRegistrations(db.event, db.now) then TeamChangesClosed
    else if !AccountStands(db, db.flights[r]) then InvalidSession
    else MutationLimitReached
  }

  lemma EntryExactly(db: Db, r: nat)
    ensures Enter(db, r) == if MayChangeTeams(db, r) then Success(db.flights[r].user) else Failure(Why(db, r))
  {
    if r in db.flights && db.flights[r].Authenticated? {
      ChangesAreCounted(db.roster.audits, db.flights[r].user);
    }
    hide Mutations, Changes;
  }

  /** No team answers to this invite. */
  predicate UnknownInvite(teams: map<Id, Team>, invite: nat) {
    forall t :: t in teams ==> teams[t].invite != invite
  }

  // ---------- the six changes ----------

  /** A user without a team founds one of an unused name and owns it; its id and invite are new. */
  lemma CreateTeamOutcome(db: Db, r: nat, name: Name)
    requires TeamInv(db)
    ensures var (db', answer) := CreateTeam(db, r, name);
            if !MayChangeTeams(db, r) then (db', answer) == (db, Refused(Why(db, r)))
            else if db.flights[r].user in db.roster.members then (db', answer) == (db, Refused(AlreadyOnTeam))
            else if exists t :: t in db.roster.teams && db.roster.teams[t].name.folded == name.folded
            then (db', answer) == (db, Refused(TeamNameExists))
            else
              var user := db.flights[r].user;
              && answer.TeamMade? && answer.team !in db.roster.teams && UnknownInvite(db.roster.teams, answer.invite)
              && db'.roster.teams == db.roster.teams[answer.team := Team(name, answer.invite, user)]
              && db'.roster.members == db.roster.members[user := Membership(answer.team, Owner)]
              && db'.roster.audits == db.roster.audits + [Audit(user, Created)]
  {
    EntryExactly(db, r);
    hide Enter, MayChangeTeams, TeamShape, MutationsCapped, AccountKeys;
  }

  /** A user without a team becomes a member of the team with this invite, as long as it has fewer than 100. */
  lemma JoinTeamOutcome(db: Db, r: nat, invite: nat)
    requires TeamInv(db)
    ensures var (db', answer) := JoinTeam(db, r, invite);
            if !MayChangeTeams(db, r) then (db', answer) == (db, Refused(Why(db, r)))
            else if db.flights[r].user in db.roster.members then (db', answer) == (db, Refused(AlreadyOnTeam))
            else if UnknownInvite(db.roster.teams, invite) then (db', answer) == (db, Refused(InvalidInvite))
            else
              forall t :: t in db.roster.teams && db.roster.teams[t].invite == invite ==>
                var user := db.flights[r].user;
                if |MembersOf(db.roster.members, t)| >= 100 then (db', answer) == (db, Refused(TeamCapacityReached))
                else
                  && answer == Done && db'.roster.teams == db.roster.teams
                  && db'.roster.members == db.roster.members[user := Membership(t, Member)]
                  && db'.roster.audits == db.roster.audits + [Audit(user, Joined)]
  {
    EntryExactly(db, r);
    hide Enter, MayChangeTeams, TeamShape, MutationsCapped, AccountKeys, MembersOf;
    forall t | t in db.roster.teams && db.roster.teams[t].invite == invite
      ensures TeamWithInvite(db.roster.teams, invite) == Some(t)
    {
      assert HasInvite(db.roster.teams, invite, t);
    }
  }

  /** The team a user is on, if both are there. */
  function TeamHeld(db: Db, user: Id): Option<Id> {
    if user in db.roster.members && db.roster.members[user].team in db.roster.teams
    then Some(db.roster.members[user].team) else None
  }

  /** An owner's team answers to a new invite; nothing else about it changes. */
  lemma RotateInviteOutcome(db: Db, r: nat)
    requires TeamInv(db)
    ensures var (db', answer) := RotateInvite(db, r);
            if !MayChangeTeams(db, r) then (db', answer) == (db, Refused(Why(db, r)))
            else
              var user := db.flights[r].user; var held := TeamHeld(db, user);
              if held.None? then (db', answer) == (db, Refused(TeamRequired))
              else if db.roster.members[user].role != Owner then (db', answer) == (db, Refused(TeamOwnerRequired))
              else
                var team := db.roster.teams[held.value];
                && answer.Invite? && UnknownInvite(db.roster.teams, answer.newInvite)
                && db'.roster.teams == db.roster.teams[held.value := Team(team.name, answer.newInvite, team.creator)]
                && db'.roster.members == db.roster.members
                && db'.roster.audits == db.roster.audits + [Audit(user, InviteRotated)]
  {
    EntryExactly(db, r);
    hide Enter, MayChangeTeams, TeamShape, MutationsCapped, AccountKeys;
  }

  /** The target is another plain member of the owner's own team. */
  predicate IsMate(db: Db, team: Id, user: Id, target: Id) {
    && target != user && target in db.accounts.users
    && target in db.roster.members && db.roster.members[target] == Membership(team, Member)
  }

  /** Why a change that an owner makes to a member is refused before the change itself is looked at. */
  function PairRefusal(db: Db, r: nat, target: Id): Option<Error> {
    if !MayChangeTeams(db, r) then Some(Why(db, r))
    else
      var user := db.flights[r].user; var held := TeamHeld(db, user);
      if held.None? then Some(TeamRequired)
      else if db.roster.members[user].role != Owner then Some(TeamOwnerRequired)
      else if target == user then Some(CannotTargetSelf)
      else if !IsMate(db, held.value, user, target) then Some(TeamMemberNotFound)
      else None
  }

  lemma PairExactly(db: Db, r: nat, target: Id)
    ensures var refusal := PairRefusal(db, r, target); var pair := OwnerAndTarget(db, r, target);
            if refusal.Some? then pair == Failure(refusal.value)
            else pair == Success(Pair(db.flights[r].user, TeamHeld(db, db.flights[r].user).value))
  {
    EntryExactly(db, r);
    hide Enter, MayChangeTeams, Why;
  }

  /** The target, an active participant, becomes the owner and the owner a member of the same team. */
  lemma TransferOwnerOutcome(db: Db, r: nat, target: Id)
    ensures var (db', answer) := TransferOwner(db, r, target); var refusal := PairRefusal(db, r, target);
            if refusal.Some? then (db', answer) == (db, Refused(refusal.value))
            else if !db.accounts.users[target].active || db.accounts.users[target].role != Participant
            then (db', answer) == (db, Refused(OwnerTargetIneligible))
            else
              var user := db.flights[r].user; var team := TeamHeld(db, user).value;
              && answer == Done && db'.roster.teams == db.roster.teams
              && db'.roster.members.Keys == db.roster.members.Keys
              && db'.roster.members[user] == Membership(team, Member)
              && db'.roster.members[target] == Membership(team, Owner)
              && (forall u :: u in db.roster.members && u != user && u != target ==>
                    db'.roster.members[u] == db.roster.members[u])
              && db'.roster.audits == db.roster.audits + [Audit(user, OwnerTransferred)]
  {
    PairExactly(db, r, target);
    hide OwnerAndTarget, MayChangeTeams, Why;
  }

  /** A member without submissions is off the team, which answers to a new invite from then on; nobody else moves. */
  lemma RemoveMemberOutcome(db: Db, r: nat, target: Id)
    requires TeamInv(db)
    ensures var (db', answer) := RemoveMember(db, r, target); var refusal := PairRefusal(db, r, target);
            if refusal.Some? then (db', answer) == (db, Refused(refusal.value))
            else
              var user := db.flights[r].user; var id := TeamHeld(db, user).value; var team := db.roster.teams[id];
              if exists i :: 0 <= i < |db.log.submissions| && db.log.submissions[i].user == target
                             && db.log.submissions[i].team == id
              then (db', answer) == (db, Refused(MemberHasActivity))
              else
                && answer.Invite? && UnknownInvite(db.roster.teams, answer.newInvite)
                && db'.roster.teams == db.roster.teams[id := Team(team.name, answer.newInvite, team.creator)]
                && db'.roster.members.Keys == db.roster.members.Keys - {target}
                && (forall u :: u in db'.roster.members ==> db'.roster.members[u] == db.roster.members[u])
                && db'.roster.audits == db.roster.audits + [Audit(user, MemberRemoved)]
  {
    PairExactly(db, r, target);
    hide OwnerAndTarget, MayChangeTeams, Why, TeamShape, MutationsCapped, AccountKeys;
  }

  /** Whoever leaves is off the team; an owner may only when alone, and takes the team with them. Members and teams
      with submissions stay. */
  lemma LeaveTeamOutcome(db: Db, r: nat)
    ensures var (db', answer) := LeaveTeam(db, r);
            if !MayChangeTeams(db, r) then (db', answer) == (db, Refused(Why(db, r)))
            else
              var user := db.flights[r].user; var held := TeamHeld(db, user);
              if held.None? then (db', answer) == (db, Refused(TeamRequired))
              else
                var owner := db.roster.members[user].role == Owner;
                var mine := exists i :: 0 <= i < |db.log.submissions| && db.log.submissions[i].user == user
                                        && db.log.submissions[i].team == held.value;
                var ours := exists i :: 0 <= i < |db.log.submissions| && db.log.submissions[i].team == held.value;
                if owner && |MembersOf(db.roster.members, held.value)| > 1
                then (db', answer) == (db, Refused(OwnerCannotLeave))
                else if mine then (db', answer) == (db, Refused(MemberHasActivity))
                else if owner && ours then (db', answer) == (db, Refused(TeamHasActivity))
                else
                  && answer == Done
                  && db'.roster.members.Keys == db.roster.members.Keys - {user}
                  && (forall u :: u in db'.roster.members ==> db'.roster.members[u] == db.roster.members[u])
                  && db'.roster.teams == (if owner then db.roster.teams - {held.value} else db.roster.teams)
                  && db'.roster.audits == db.roster.audits + [Audit(user, Left)]
  {
    EntryExactly(db, r);
    hide Enter, MayChangeTeams, Why, MembersOf, DropTeam;
  }
}
