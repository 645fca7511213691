/** The six team mutations of backend/src/alpha/routes_teams.py. The shared Event lock and the row
    locks, taken before anything is decided, make each of them one step; what it relied on from before
    the locks is the authenticated snapshot r. */
module TeamRoutes {
  import opened Basics
  import opened Schema
  import opened Services
  import opened Database

  /** require_user, _ensure_team_changes_open and _lock_actor_and_assert_lifetime_limit. */
  function Enter(db: Db, r: nat): (user: Result<Id, Error>)
    ensures user.Success? ==> user.value in db.accounts.users
  {
    if r !in db.flights || !db.flights[r].Authenticated? then Failure(InvalidSession)
    else if db.event.mode == Individual then Failure(IndividualModeActive)
    else if !AllowsRegistration(db.event, db.now) then Failure(TeamChangesClosed)
    else
      var f := db.flights[r];
      if f.user !in db.accounts.users || !db.accounts.users[f.user].active
        || db.accounts.users[f.user].version != f.version then Failure(InvalidSession)
      else if Mutations(db.roster.audits, f.user) >= MAX_TEAM_MUTATIONS_PER_USER_EVENT
      then Failure(MutationLimitReached)
      else Success(f.user)
  }

  /** The team, its owner and the audit row. */
  function Founded(db: Db, user: Id, name: Name): Db {
    var team, invite := db.next, db.next + 1;
    db.(next := db.next + 2,
        roster := Roster(db.roster.teams[team := Team(name, invite, user)],
                         db.roster.members[user := Membership(team, Owner)],
                         db.roster.audits + [Audit(user, Created)]))
  }

  function CreateTeam(db: Db, r: nat, name: Name): (Db, Response) {
    match Enter(db, r)
    case Failure(e) => (db, Refused(e))
    case Success(user) =>
      if user in db.roster.members then (db, Refused(AlreadyOnTeam))
      else if NameTaken(db.roster.teams, name) then (db, Refused(TeamNameExists))
      else
        (Founded(db, user, name), TeamMade(db.next, db.next + 1))
  }

  ghost function JoinTeam(db: Db, r: nat, invite: nat): (Db, Response) {
    match Enter(db, r)
    case Failure(e) => (db, Refused(e))
    case Success(user) =>
      if user in db.roster.members then (db, Refused(AlreadyOnTeam))
      else
        match TeamWithInvite(db.roster.teams, invite)
        case None => (db, Refused(InvalidInvite))
        case Some(team) =>
          if |MembersOf(db.roster.members, team)| >= MAX_MEMBERS_PER_TEAM then (db, Refused(TeamCapacityReached))
          else
            (db.(roster := Roster(db.roster.teams,
                                  db.roster.members[user := Membership(team, Member)],
                                  db.roster.audits + [Audit(user, Joined)])),
             Done)
  }

  /** The actor's own membership and its team, once both rows are locked. */
  function OwnTeam(db: Db, user: Id): (m: Result<Membership, Error>)
    ensures m.Success? ==>
              user in db.roster.members && db.roster.members[user] == m.value && m.value.team in db.roster.teams
  {
    if user !in db.roster.members || db.roster.members[user].team !in db.roster.teams then Failure(TeamRequired)
    else Success(db.roster.members[user])
  }

  function RotateInvite(db: Db, r: nat): (Db, Response) {
    match Enter(db, r)
    case Failure(e) => (db, Refused(e))
    case Success(user) =>
      match OwnTeam(db, user)
      case Failure(e) => (db, Refused(e))
      case Success(m) =>
        if m.role != Owner then (db, Refused(TeamOwnerRequired))
        else
          (db.(next := db.next + 1,
               roster := Roster(db.roster.teams[m.team := db.roster.teams[m.team].(invite := db.next)],
                                db.roster.members,
                                db.roster.audits + [Audit(user, InviteRotated)])),
           Invite(db.next))
  }

  datatype Pair = Pair(actor: Id, team: Id)

  /** _lock_owner_and_target */
  function OwnerAndTarget(db: Db, r: nat, target: Id): (p: Result<Pair, Error>)
    ensures p.Success? ==>
              && p.value.actor in db.accounts.users && p.value.actor != target && p.value.team in db.roster.teams
                 && target in db.accounts.users
              && p.value.actor in db.roster.members
                 && db.roster.members[p.value.actor] == Membership(p.value.team, Owner)
              && target in db.roster.members && db.roster.members[target] == Membership(p.value.team, Member)
  {
    match Enter(db, r)
    case Failure(e) => Failure(e)
    case Success(actor) =>
      match OwnTeam(db, actor)
      case Failure(e) => Failure(e)
      case Success(m) =>
        if m.role != Owner then Failure(TeamOwnerRequired)
        else if actor == target then Failure(CannotTargetSelf)
        else if target !in db.accounts.users || target !in db.roster.members
          || db.roster.members[target] != Membership(m.team, Member)
        then Failure(TeamMemberNotFound)
        else Success(Pair(actor, m.team))
  }

  function TransferOwner(db: Db, r: nat, target: Id): (Db, Response) {
    match OwnerAndTarget(db, r, target)
    case Failure(e) => (db, Refused(e))
    case Success(p) =>
      if !db.accounts.users[target].active || db.accounts.users[target].role != Participant
      then (db, Refused(OwnerTargetIneligible))
      else
        (db.(roster := Roster(db.roster.teams,
                              db.roster.members[p.actor := Membership(p.team, Member)]
                                               [target := Membership(p.team, Owner)],
                              db.roster.audits + [Audit(p.actor, OwnerTransferred)])),
         Done)
  }

  function RemoveMember(db: Db, r: nat, target: Id): (Db, Response) {
    match OwnerAndTarget(db, r, target)
    case Failure(e) => (db, Refused(e))
    case Success(p) =>
      if MemberSubmitted(db.log.submissions, target, p.team) then (db, Refused(MemberHasActivity))
      else
        (db.(next := db.next + 1,
             roster := Roster(db.roster.teams[p.team := db.roster.teams[p.team].(invite := db.next)],
                              db.roster.members - {target},
                              db.roster.audits + [Audit(p.actor, MemberRemoved)])),
         Invite(db.next))
  }

  /** ON DELETE CASCADE from teams. */
  function DropTeamSubmissions(rows: seq<Submission>, team: Id): seq<Submission> {
    if rows == [] then []
    else
      var n := |rows| - 1;
      DropTeamSubmissions(rows[..n], team) + (if rows[n].team == team then [] else [rows[n]])
  }

  function DropTeamSolves(rows: seq<Solve>, team: Id): seq<Solve> {
    if rows == [] then []
    else var n := |rows| - 1; DropTeamSolves(rows[..n], team) + (if rows[n].team == team then [] else [rows[n]])
  }

  function DropTeamScores(rows: seq<ScoreEvent>, team: Id): seq<ScoreEvent> {
    if rows == [] then []
    else var n := |rows| - 1; DropTeamScores(rows[..n], team) + (if rows[n].team == team then [] else [rows[n]])
  }

  function DropTeam(log: Log, team: Id): Log {
    Log(DropTeamSubmissions(log.submissions, team), DropTeamSolves(log.solves, team), DropTeamScores(log.scores, team))
  }

  /** Why leave_team refuses once the rows are locked. */
  function LeaveRefusal(db: Db, user: Id, m: Membership): Option<Error> {
    if m.role == Owner && |MembersOf(db.roster.members, m.team)| > 1 then Some(OwnerCannotLeave)
    else if MemberSubmitted(db.log.submissions, user, m.team) then Some(MemberHasActivity)
    else if m.role == Owner && TeamSubmitted(db.log.submissions, m.team) then Some(TeamHasActivity)
    else None
  }

  /** The membership goes, and an owner's team with it. */
  function Departed(db: Db, user: Id, m: Membership): Db {
    var teams := if m.role == Owner then db.roster.teams - {m.team} else db.roster.teams;
    db.(roster := Roster(teams, db.roster.members - {user}, db.roster.audits + [Audit(user, Left)]),
        log := if m.role == Owner then DropTeam(db.log, m.team) else db.log)
  }

  function LeaveTeam(db: Db, r: nat): (Db, Response) {
    match Enter(db, r)
    case Failure(e) => (db, Refused(e))
    case Success(user) =>
      match OwnTeam(db, user)
      case Failure(e) => (db, Refused(e))
      case Success(m) =>
        var refusal := LeaveRefusal(db, user, m);
        if refusal.Some? then (db, Refused(refusal.value)) else (Departed(db, user, m), Done)
  }
}
