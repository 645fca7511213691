/** The whole database with the clock, and the requests that are between two of their transactions. */
module Database {
  import opened Basics
  import opened Schema

  const MAX_CHALLENGE_ATTEMPTS := 1000
  const MAX_SUBMISSIONS_PER_TEAM_EVENT := 10000
  const MAX_TEAM_MUTATIONS_PER_USER_EVENT := 100
  const MAX_MEMBERS_PER_TEAM := 100
  const MAX_PARTICIPANT_USERS := 100000
  const MAX_ACTIVE_SESSIONS_PER_USER := 10
  const MAX_CREDENTIAL_ATTEMPTS := 3

  datatype Config = Config(maxFlagLength: nat, sessionTtl: Time)

  /** What a request remembers from its first, lock-free look at the database. */
  datatype Flight =
    | Authenticated(user: Id, version: nat, token: nat)
    | Registering(email: Name, username: Name, password: string, access: Option<nat>)
    | LoggingIn(user: Id, password: string, verified: PasswordHash, left: nat)
    | ChangingPassword(user: Id, token: nat, password: string, replacement: string, verified: PasswordHash, left: nat)

  /** A committed registration and the access code it went through. */
  datatype Admission = Admission(user: Id, code: Option<nat>)

  datatype Accounts = Accounts(users: map<Id, User>, sessions: map<nat, Session>)

  /** `admissions` only records history. */
  datatype Registry = Registry(codes: map<nat, Code>, admissions: seq<Admission>)

  datatype Roster = Roster(teams: map<Id, Team>, members: map<Id, Membership>, audits: seq<Audit>)

  datatype Log = Log(submissions: seq<Submission>, solves: seq<Solve>, scores: seq<ScoreEvent>)

  /** `next` supplies every id, token, invite and salt: a random value that was never drawn before.
      Sessions are keyed by their token, and registration codes by theirs. `edited` is the instant of
      the last change of the event row. */
  datatype Db = Db(
    now: Time, next: nat, config: Config, event: Event, edited: Time, challenges: map<Id, Challenge>,
    accounts: Accounts, registry: Registry, roster: Roster, log: Log, flights: map<nat, Flight>)

  datatype Error =
    | InvalidSession | TeamRequired | SubmissionsClosed | FlagTooLong | RateLimited | ChallengeNotFound
    | AttemptLimitReached | StorageLimitReached
    | TeamChangesClosed | IndividualModeActive | MutationLimitReached | AlreadyOnTeam | TeamNameExists | InvalidInvite
    | TeamCapacityReached | TeamOwnerRequired | CannotTargetSelf | TeamMemberNotFound | OwnerTargetIneligible
    | OwnerCannotLeave | MemberHasActivity | TeamHasActivity
    | RegistrationClosed | RegistrationAccessDenied | AccountExists | ParticipantCapacityReached
    | InvalidCredentials | CredentialChanged | InvalidCurrentPassword | UserNotFound
    | EventArchived | EventSlugLocked | ScoreboardFreezeLocked | FrozenScoringLocked | TeamModeLocked
    | InvalidStateTransition | InvalidEventTimes | InvalidScoring | ChallengeConflict | ChallengeHasSubmissions
    | DuplicatePrerequisite | SelfPrerequisite | InvalidPrerequisite | PrerequisiteCycle
    | ParticipantRequired | CodeNotFound

  datatype Response =
    | Refused(error: Error)
    | Done
    | Started(flight: nat)
    | TryAgain
    | SignedIn(token: nat)
    | TeamMade(team: Id, invite: nat)
    | Invite(newInvite: nat)
    | Verdict(correct: bool, repeated: bool, awarded: int, solvedAt: Option<Time>)

  // ---------- queries ----------

  function MembersOf(members: map<Id, Membership>, team: Id): set<Id> {
    set u | u in members && members[u].team == team
  }

  function OwnersOf(members: map<Id, Membership>, team: Id): set<Id> {
    set u | u in members && members[u].team == team && members[u].role == Owner
  }

  function Participants(users: map<Id, User>): set<Id> {
    set u | u in users && users[u].role == Participant
  }

  function Attempts(submissions: seq<Submission>, team: Id, challenge: Id): nat {
    if submissions == [] then 0
    else
      var n := |submissions| - 1;
      Attempts(submissions[..n], team, challenge)
      + (if submissions[n].team == team && submissions[n].challenge == challenge then 1 else 0)
  }

  function EventAttempts(submissions: seq<Submission>, team: Id): nat {
    if submissions == [] then 0
    else
      var n := |submissions| - 1;
      EventAttempts(submissions[..n], team) + (if submissions[n].team == team then 1 else 0)
  }

  function SolveCount(solves: seq<Solve>, challenge: Id): nat {
    if solves == [] then 0
    else var n := |solves| - 1; SolveCount(solves[..n], challenge) + (if solves[n].challenge == challenge then 1 else 0)
  }

  /** The audit rows _assert_lifetime_limit counts. */
  function Mutations(audits: seq<Audit>, actor: Id): nat {
    if audits == [] then 0
    else
      var n := |audits| - 1;
      Mutations(audits[..n], actor) + (if audits[n].actor == actor && audits[n].action != SoloCreated then 1 else 0)
  }

  predicate ChallengeSubmitted(submissions: seq<Submission>, challenge: Id) {
    exists i :: 0 <= i < |submissions| && submissions[i].challenge == challenge
  }

  predicate TeamSubmitted(submissions: seq<Submission>, team: Id) {
    exists i :: 0 <= i < |submissions| && submissions[i].team == team
  }

  predicate MemberSubmitted(submissions: seq<Submission>, user: Id, team: Id) {
    exists i :: 0 <= i < |submissions| && submissions[i].user == user && submissions[i].team == team
  }

  predicate IsStored(s: Submission, team: Id, challenge: Id, key: string) {
    s.team == team && s.challenge == challenge && s.key == key
  }

  predicate IsSolved(solves: seq<Solve>, team: Id, challenge: Id) {
    exists i :: 0 <= i < |solves| && solves[i].team == team && solves[i].challenge == challenge
  }

  function SolvedBy(solves: seq<Solve>, team: Id): set<Id> {
    set s | s in solves && s.team == team :: s.challenge
  }

  predicate NameTaken(teams: map<Id, Team>, name: Name) {
    exists t :: t in teams && teams[t].name.folded == name.folded
  }

  predicate AccountTaken(users: map<Id, User>, email: Name, username: Name) {
    exists u :: u in users && (users[u].email.folded == email.folded || users[u].username.folded == username.folded)
  }

  ghost predicate HasInvite(teams: map<Id, Team>, invite: nat, t: Id) {
    t in teams && teams[t].invite == invite
  }

  /** The unique index on invite_hash makes this the only such team. */
  ghost function TeamWithInvite(teams: map<Id, Team>, invite: nat): Option<Id> {
    if t :| HasInvite(teams, invite, t) then Some(t) else None
  }

  ghost predicate HasEmail(users: map<Id, User>, email: Name, u: Id) {
    u in users && users[u].email.folded == email.folded
  }

  ghost function UserWithEmail(users: map<Id, User>, email: Name): Option<Id> {
    if u :| HasEmail(users, email, u) then Some(u) else None
  }

  // ---------- sessions ----------

  /** current_user accepts the token for this user. */
  predicate Accepts(db: Db, token: nat) {
    && token in db.accounts.sessions
    && db.accounts.sessions[token].user in db.accounts.users
    && db.accounts.sessions[token].expires > db.now
    && db.accounts.users[db.accounts.sessions[token].user].active
    && db.accounts.sessions[token].version == db.accounts.users[db.accounts.sessions[token].user].version
  }

  function WithoutSessionsOf(sessions: map<nat, Session>, user: Id): map<nat, Session> {
    map t | t in sessions && sessions[t].user != user :: sessions[t]
  }

  /** ORDER BY created_at, id; a session goes by its token. */
  predicate Newer(sessions: map<nat, Session>, x: nat, t: nat)
    requires x in sessions && t in sessions
  {
    sessions[x].created > sessions[t].created || (sessions[x].created == sessions[t].created && x > t)
  }

  /** The user's unexpired sessions newer than t. */
  function NewerActive(sessions: map<nat, Session>, user: Id, now: Time, t: nat): set<nat>
    requires t in sessions
  {
    set x | x in sessions && sessions[x].user == user && sessions[x].expires > now && Newer(sessions, x, t)
  }

  /** ORDER BY created_at DESC OFFSET 9: everything but the nine newest unexpired sessions of the user. */
  predicate Excess(sessions: map<nat, Session>, user: Id, now: Time, t: nat) {
    && t in sessions && sessions[t].user == user && sessions[t].expires > now
    && |NewerActive(sessions, user, now, t)| >= MAX_ACTIVE_SESSIONS_PER_USER - 1
  }

  /** _new_session, without the housekeeping of expired rows. */
  function AddSession(
    sessions: map<nat, Session>, now: Time, ttl: Time, user: Id, version: nat, token: nat): map<nat, Session>
  {
    var kept := map t | t in sessions && !Excess(sessions, user, now, t) :: sessions[t];
    kept[token := Session(user, version, now, now + ttl)]
  }

  /** require_user: the first look of an authenticated request. A team change charges its rate windows before it,
      and `rate` is their verdict; a submission charges its own later. */
  function Authenticate(db: Db, token: nat, rate: bool): (Db, Response) {
    if !rate then (db, Refused(RateLimited))
    else if !Accepts(db, token) then (db, Refused(InvalidSession))
    else
      var user := db.accounts.sessions[token].user;
      (db.(flights := db.flights[db.next := Authenticated(user, db.accounts.users[user].version, token)],
           next := db.next + 1),
       Started(db.next))
  }
}
