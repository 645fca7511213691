/** Every write the backend can make, one transaction or first look at a time, and runs of them. */
module Contest {
  import opened Basics
  import opened Schema
  import opened Database
  import opened TeamRoutes
  import opened SubmitRoute
  import opened AuthRoutes
  import opened AdminRoutes

  datatype Command =
    | Elapse(dt: Time)
    | DoAuthenticate(token: nat, rate: bool)
    | DoCreateTeam(r: nat, name: Name)
    | DoJoinTeam(r: nat, invite: nat)
    | DoRotateInvite(r: nat)
    | DoTransferOwner(r: nat, target: Id)
    | DoRemoveMember(r: nat, target: Id)
    | DoLeaveTeam(r: nat)
    | DoSubmit(r: nat, attempt: Attempt)
    | DoRegisterBegin(email: Name, username: Name, password: string, access: Option<nat>, rate: bool)
    | DoRegisterFinish(r: nat, suffix: string)
    | DoLoginBegin(email: Name, password: string, rate: bool)
    | DoLoginAttempt(r: nat, rehash: bool)
    | DoLogout(token: nat)
    | DoPasswordBegin(token: nat, password: string, replacement: string, rate: bool, userRate: bool)
    | DoPasswordAttempt(r: nat)
    | DoSetPassword(email: Name, password: string)
    | DoUpdateEvent(eventPatch: EventPatch, checked: Time)
    | DoCreateChallenge(challenge: Challenge)
    | DoUpdateChallenge(id: Id, patch: ChallengePatch, checked: Time)
    | DoDeleteChallenge(id: Id)
    | DoSetVisibility(id: Id, visible: bool)
    | DoUpdateUserStatus(id: Id, active: bool)
    | DoCreateCode(maxUses: Option<nat>, expires: Option<Time>)
    | DoRevokeCode(code: nat)

  /** What the clock allows: time passes forwards, a submission reads the clock in order and before it commits, and
      an edit is checked no later than it commits and, holding the Event lock, not before the last change of the
      event. */
  predicate Timely(db: Db, c: Command) {
    match c
    case Elapse(dt) => dt >= 0.0
    case DoSubmit(_, a) => a.gateAt <= a.accessAt <= a.storedAt <= a.solvedAt <= a.scoredAt <= db.now
    case DoUpdateEvent(_, checked) => db.edited <= checked <= db.now
    case DoUpdateChallenge(_, _, checked) => db.edited <= checked <= db.now
    case _ => true
  }

  /** routes_teams.py */
  predicate OnTeams(c: Command) {
    c.DoCreateTeam? || c.DoJoinTeam? || c.DoRotateInvite? || c.DoTransferOwner? || c.DoRemoveMember? || c.DoLeaveTeam?
  }

  ghost function HandleTeams(db: Db, c: Command): (Db, Response)
    requires OnTeams(c)
  {
    match c
    case DoCreateTeam(r, name) => CreateTeam(db, r, name)
    case DoJoinTeam(r, invite) => JoinTeam(db, r, invite)
    case DoRotateInvite(r) => RotateInvite(db, r)
    case DoTransferOwner(r, target) => TransferOwner(db, r, target)
    case DoRemoveMember(r, target) => RemoveMember(db, r, target)
    case DoLeaveTeam(r) => LeaveTeam(db, r)
  }

  /** The first, lock-free looks at the database. */
  predicate OnBegin(c: Command) {
    c.DoAuthenticate? || c.DoRegisterBegin? || c.DoLoginBegin? || c.DoPasswordBegin?
  }

  ghost function HandleBegin(db: Db, c: Command): (Db, Response)
    requires OnBegin(c)
  {
    match c
    case DoAuthenticate(token, rate) => Authenticate(db, token, rate)
    case DoRegisterBegin(email, username, password, access, rate) =>
      RegisterBegin(db, email, username, password, access, rate)
    case DoLoginBegin(email, password, rate) => LoginBegin(db, email, password, rate)
    case DoPasswordBegin(token, password, replacement, rate, userRate) =>
      PasswordBegin(db, token, password, replacement, rate, userRate)
  }

  /** routes_auth.py, and what else touches accounts and their sessions. */
  predicate OnAccounts(c: Command) {
    c.DoRegisterFinish? || c.DoLoginAttempt? || c.DoLogout? || c.DoPasswordAttempt? || c.DoSetPassword?
      || c.DoUpdateUserStatus?
  }

  ghost function HandleAccounts(db: Db, c: Command): (Db, Response)
    requires OnAccounts(c)
  {
    match c
    case DoRegisterFinish(r, suffix) => RegisterFinish(db, r, suffix)
    case DoLoginAttempt(r, rehash) => LoginAttempt(db, r, rehash)
    case DoLogout(token) => Logout(db, token)
    case DoPasswordAttempt(r) => PasswordAttempt(db, r)
    case DoSetPassword(email, password) => SetPassword(db, email, password)
    case DoUpdateUserStatus(id, active) => UpdateUserStatus(db, id, active)
  }

  /** Administration of challenges and registration codes. */
  predicate OnSetup(c: Command) {
    c.DoCreateChallenge? || c.DoUpdateChallenge? || c.DoDeleteChallenge? || c.DoSetVisibility? || c.DoCreateCode?
      || c.DoRevokeCode?
  }

  ghost function HandleSetup(db: Db, c: Command): (Db, Response)
    requires OnSetup(c)
  {
    match c
    case DoCreateChallenge(challenge) => CreateChallenge(db, challenge)
    case DoUpdateChallenge(id, p, checked) => UpdateChallenge(db, id, p, checked)
    case DoDeleteChallenge(id) => DeleteChallenge(db, id)
    case DoSetVisibility(id, visible) => SetVisibility(db, id, visible)
    case DoCreateCode(maxUses, expires) => CreateCode(db, maxUses, expires)
    case DoRevokeCode(code) => RevokeCode(db, code)
  }

  ghost function Handle(db: Db, c: Command): (Db, Response) {
    if OnTeams(c) then HandleTeams(db, c)
    else if OnBegin(c) then HandleBegin(db, c)
    else if OnAccounts(c) then HandleAccounts(db, c)
    else if OnSetup(c) then HandleSetup(db, c)
    else
      match c
      case Elapse(dt) => (db.(now := db.now + dt), Done)
      case DoSubmit(r, a) => SubmitFlag(db, r, a)
      case DoUpdateEvent(p, checked) => UpdateEvent(db, p, checked)
  }

  /** Handle, one group at a time. */
  lemma HandleIs(db: Db, c: Command)
    ensures c.Elapse? ==> Handle(db, c).0 == db.(now := db.now + c.dt)
    ensures OnTeams(c) ==> Handle(db, c) == HandleTeams(db, c)
    ensures OnBegin(c) ==> Handle(db, c) == HandleBegin(db, c)
    ensures OnAccounts(c) ==> Handle(db, c) == HandleAccounts(db, c)
    ensures OnSetup(c) ==> Handle(db, c) == HandleSetup(db, c)
    ensures c.DoRegisterFinish? ==> Handle(db, c) == RegisterFinish(db, c.r, c.suffix)
    ensures c.DoLoginAttempt? ==> Handle(db, c) == LoginAttempt(db, c.r, c.rehash)
    ensures c.DoPasswordAttempt? ==> Handle(db, c) == PasswordAttempt(db, c.r)
    ensures c.DoSubmit? ==> Handle(db, c) == SubmitFlag(db, c.r, c.attempt)
    ensures c.DoUpdateEvent? ==> Handle(db, c) == UpdateEvent(db, c.eventPatch, c.checked)
  {
    hide HandleTeams, HandleBegin, HandleSetup, RegisterFinish, LoginAttempt, Logout, PasswordAttempt, SetPassword,
         UpdateUserStatus, SubmitFlag, UpdateEvent;
  }

  /** The request a command continues; it ends with it, unless its retry loop goes round again. */
  function Continues(c: Command): Option<nat> {
    match c
    case DoCreateTeam(r, _) => Some(r)
    case DoJoinTeam(r, _) => Some(r)
    case DoRotateInvite(r) => Some(r)
    case DoTransferOwner(r, _) => Some(r)
    case DoRemoveMember(r, _) => Some(r)
    case DoLeaveTeam(r) => Some(r)
    case DoSubmit(r, _) => Some(r)
    case DoRegisterFinish(r, _) => Some(r)
    case DoLoginAttempt(r, _) => Some(r)
    case DoPasswordAttempt(r) => Some(r)
    case _ => None
  }

  ghost function Step(db: Db, c: Command): Db {
    var (db', response) := Handle(db, c);
    if Continues(c).Some? && response != TryAgain then db'.(flights := db'.flights - {Continues(c).value}) else db'
  }

  ghost function Run(db: Db, commands: seq<Command>): Db {
    if commands == [] then db else Step(Run(db, commands[..|commands| - 1]), commands[|commands| - 1])
  }

  /** The clock assumptions along the whole run. */
  ghost predicate TimelyRun(db: Db, commands: seq<Command>) {
    forall k :: 0 <= k < |commands| ==> Timely(Run(db, commands[..k]), commands[k])
  }

  lemma TimelyPrefix(db: Db, commands: seq<Command>, n: nat)
    requires TimelyRun(db, commands) && n <= |commands|
    ensures TimelyRun(db, commands[..n])
  {
    forall k | 0 <= k < n ensures Timely(Run(db, commands[..n][..k]), commands[..n][k]) {
      assert commands[..n][..k] == commands[..k];
    }
  }

  lemma RunMore(db: Db, commands: seq<Command>, c: Command)
    requires TimelyRun(db, commands) && Timely(Run(db, commands), c)
    ensures TimelyRun(db, commands + [c]) && Run(db, commands + [c]) == Step(Run(db, commands), c)
  {
    hide Step, Timely;
    var more := commands + [c];
    assert more[..|commands|] == commands;
    forall k | 0 <= k < |more| ensures Timely(Run(db, more[..k]), more[k]) {
      if k < |commands| { assert more[..k] == commands[..k]; }
    }
  }

  /** The state bootstrap leaves behind: one event in draft, administrators, perhaps demo challenges
      without prerequisites, and nothing else. */
  ghost predicate Bootstrapped(db: Db) {
    && db.event.state == Draft && TimesOk(db.event) && db.edited <= db.now
    && (forall u :: u in db.accounts.users ==> u < db.next && db.accounts.users[u].role == Admin)
    && (forall u, v :: u in db.accounts.users && v in db.accounts.users && u != v ==>
          db.accounts.users[u].email.folded != db.accounts.users[v].email.folded
            && db.accounts.users[u].username.folded != db.accounts.users[v].username.folded)
    && (forall c :: c in db.challenges ==> c < db.next && db.challenges[c].prerequisites == [])
    && SlugsUnique(db.challenges)
    && db.accounts.sessions == map[] && db.registry.codes == map[]
    && db.roster.teams == map[] && db.roster.members == map[]
    && db.roster.audits == [] && db.log.submissions == [] && db.log.solves == [] && db.log.scores == []
    && db.registry.admissions == []
    && db.flights == map[]
  }
}
