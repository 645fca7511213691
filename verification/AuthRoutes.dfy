/** Accounts of backend/src/alpha/routes_auth.py. Registration, login and password change look, let go,
    hash, and come back under locks; each return is one step. */
module AuthRoutes {
  import opened Basics
  import opened Schema
  import opened Services
  import opened Database

  // ---------- registration ----------

  predicate CodeUsable(code: Code, now: Time) {
    && code.active && code.revokedAt.None?
    && (code.expires.None? || code.expires.value > now)
    && (code.maxUses.None? || code.uses < code.maxUses.value)
  }

  /** _registration_code_or_denied */
  function CodeOrDenied(db: Db, access: Option<nat>): Result<Option<nat>, Error> {
    if db.event.access != CodeOnly then Success(None)
    else if access.Some? && access.value in db.registry.codes && CodeUsable(db.registry.codes[access.value], db.now)
    then Success(access)
    else Failure(RegistrationAccessDenied)
  }

  /** The checks of register, made once before the password is hashed and again under the Event and code locks. */
  function MayRegister(db: Db, email: Name, username: Name, access: Option<nat>): Result<Option<nat>, Error> {
    if !AllowsRegistration(db.event, db.now) then Failure(RegistrationClosed)
    else
      match CodeOrDenied(db, access)
      case Failure(e) => Failure(e)
      case Success(code) =>
        if AccountTaken(db.accounts.users, email, username) then Failure(AccountExists)
        else if |Participants(db.accounts.users)| >= MAX_PARTICIPANT_USERS then Failure(ParticipantCapacityReached)
        else Success(code)
  }

  /** `rate` is the verdict of the windows that _check_auth_rate charges first. */
  function RegisterBegin(
    db: Db, email: Name, username: Name, password: string, access: Option<nat>, rate: bool): (Db, Response)
  {
    if !rate then (db, Refused(RateLimited))
    else
      match MayRegister(db, email, username, access)
      case Failure(e) => (db, Refused(e))
      case Success(_) =>
        (db.(flights := db.flights[db.next := Registering(email, username, password, access)], next := db.next + 1),
         Started(db.next))
  }

  function UseCode(codes: map<nat, Code>, code: Option<nat>): map<nat, Code> {
    if code.Some? && code.value in codes then
      codes[code.value := codes[code.value].(uses := codes[code.value].uses + 1)]
    else codes
  }

  /** In an individual event an account comes with a team of its own; a taken name violates its unique index. */
  function SoloRoster(roster: Roster, mode: TeamMode, name: Name, user: Id, team: Id, invite: nat): Option<Roster> {
    if mode != Individual then Some(roster)
    else if NameTaken(roster.teams, name) then None
    else
      Some(Roster(roster.teams[team := Team(name, invite, user)],
                  roster.members[user := Membership(team, Owner)],
                  roster.audits + [Audit(user, SoloCreated)]))
  }

  function SoloName(username: Name, suffix: string): Name {
    Name(username.text + "-" + suffix, username.folded + "-" + suffix)
  }

  function Account(f: Flight, salt: nat): User
    requires f.Registering?
  {
    User(f.email, f.username, PasswordHash(salt, f.password), Participant, true, false, 0)
  }

  /** The rows of a new account. `suffix` is the part of its id that the personal team's name ends in. */
  function OpenAccount(db: Db, f: Flight, code: Option<nat>, suffix: string): (Db, Response)
    requires f.Registering?
  {
    var user, team, invite, token := db.next, db.next + 1, db.next + 2, db.next + 3;
    match SoloRoster(db.roster, db.event.mode, SoloName(f.username, suffix), user, team, invite)
    case None => (db, Refused(AccountExists))
    case Some(roster) =>
      (db.(next := db.next + 5,
           accounts := Accounts(db.accounts.users[user := Account(f, db.next + 4)],
                                AddSession(db.accounts.sessions, db.now, db.config.sessionTtl, user, 0, token)),
           registry := Registry(UseCode(db.registry.codes, code), db.registry.admissions + [Admission(user, code)]),
           roster := roster),
       SignedIn(token))
  }

  function RegisterFinish(db: Db, r: nat, suffix: string): (Db, Response) {
    if r !in db.flights || !db.flights[r].Registering? then (db, Refused(InvalidSession))
    else
      var f := db.flights[r];
      match MayRegister(db, f.email, f.username, f.access)
      case Failure(e) => (db, Refused(e))
      case Success(code) => OpenAccount(db, f, code, suffix)
  }

  // ---------- login ----------

  ghost function LoginBegin(db: Db, email: Name, password: string, rate: bool): (Db, Response) {
    if !rate then (db, Refused(RateLimited))
    else
      match UserWithEmail(db.accounts.users, email)
      case None => (db, Refused(InvalidCredentials))
      case Some(user) =>
        if user !in db.accounts.users || db.accounts.users[user].hash.password != password
          || !db.accounts.users[user].active
        then (db, Refused(InvalidCredentials))
        else
          (db.(flights :=
            db.flights[db.next := LoggingIn(user, password, db.accounts.users[user].hash, MAX_CREDENTIAL_ATTEMPTS)],
               next := db.next + 1),
           Started(db.next))
  }

  /** How one turn of a retry loop ends: refused, round again with a newly verified hash, or through. */
  datatype Turn = Deny(error: Error) | Again(verified: PasswordHash) | Through

  /** Under the User lock: compare with the verified hash, and without it verify the current one. */
  function Compare(current: PasswordHash, verified: PasswordHash, password: string, left: nat, wrong: Error): Turn {
    if current == verified then Through
    else if current.password != password then Deny(wrong)
    else if left <= 1 then Deny(CredentialChanged)
    else Again(current)
  }

  function LoginTurn(db: Db, r: nat): (turn: Turn)
    ensures !turn.Deny? ==> r in db.flights && db.flights[r].LoggingIn? && db.flights[r].user in db.accounts.users
    ensures turn.Again? ==> db.flights[r].left >= 1
  {
    if r !in db.flights || !db.flights[r].LoggingIn? then Deny(InvalidSession)
    else
      var f := db.flights[r];
      if f.user !in db.accounts.users || !db.accounts.users[f.user].active then Deny(InvalidCredentials)
      else Compare(db.accounts.users[f.user].hash, f.verified, f.password, f.left, InvalidCredentials)
  }

  /** A new session; `rehash` says that the verified hash needs a fresh salt. */
  function SignIn(db: Db, id: Id, password: string, rehash: bool): (Db, Response)
    requires id in db.accounts.users
  {
    var user := db.accounts.users[id];
    var hash := if rehash then PasswordHash(db.next + 1, password) else user.hash;
    (db.(next := db.next + 2,
         accounts := Accounts(db.accounts.users[id := user.(hash := hash)],
                              AddSession(
                                db.accounts.sessions, db.now, db.config.sessionTtl, id, user.version, db.next))),
     SignedIn(db.next))
  }

  /** One turn of login. */
  function LoginAttempt(db: Db, r: nat, rehash: bool): (Db, Response) {
    match LoginTurn(db, r)
    case Deny(e) => (db, Refused(e))
    case Again(hash) =>
      var f := db.flights[r];
      (db.(flights := db.flights[r := LoggingIn(f.user, f.password, hash, f.left - 1)]), TryAgain)
    case Through => SignIn(db, db.flights[r].user, db.flights[r].password, rehash)
  }

  function Logout(db: Db, token: nat): (Db, Response) {
    (db.(accounts := db.accounts.(sessions := db.accounts.sessions - {token})), Done)
  }

  // ---------- password change ----------

  /** Two sets of windows are charged, by session before authentication and by account after it. */
  function PasswordBegin(
    db: Db, token: nat, current: string, replacement: string, rate: bool, userRate: bool): (Db, Response)
  {
    if !rate then (db, Refused(RateLimited))
    else if !Accepts(db, token) then (db, Refused(InvalidSession))
    else if !userRate then (db, Refused(RateLimited))
    else
      var user := db.accounts.sessions[token].user;
      if db.accounts.users[user].hash.password != current then (db, Refused(InvalidCurrentPassword))
      else
        var f :=
          ChangingPassword(user, token, current, replacement, db.accounts.users[user].hash, MAX_CREDENTIAL_ATTEMPTS);
        (db.(flights := db.flights[db.next := f], next := db.next + 1), Started(db.next))
  }

  /** The user and the very session the request came with, both locked. */
  predicate MayChange(db: Db, f: Flight)
    requires f.ChangingPassword?
  {
    && f.user in db.accounts.users && db.accounts.users[f.user].active
    && f.token in db.accounts.sessions && db.accounts.sessions[f.token].user == f.user
    && db.accounts.sessions[f.token].expires > db.now
    && db.accounts.sessions[f.token].version == db.accounts.users[f.user].version
  }

  function PasswordTurn(db: Db, r: nat): (turn: Turn)
    ensures !turn.Deny? ==>
              r in db.flights && db.flights[r].ChangingPassword? && db.flights[r].user in db.accounts.users
    ensures turn.Again? ==> db.flights[r].left >= 1
  {
    if r !in db.flights || !db.flights[r].ChangingPassword? then Deny(InvalidSession)
    else
      var f := db.flights[r];
      if !MayChange(db, f) then Deny(InvalidSession)
      else Compare(db.accounts.users[f.user].hash, f.verified, f.password, f.left, InvalidCurrentPassword)
  }

  /** The next generation of the account, with one session of its own. */
  function ReplacePassword(db: Db, id: Id, replacement: string): (Db, Response)
    requires id in db.accounts.users
  {
    var user := db.accounts.users[id];
    var changed :=
      user.(hash := PasswordHash(db.next + 1, replacement), mustChange := false, version := user.version + 1);
    var rest := WithoutSessionsOf(db.accounts.sessions, id);
    (db.(next := db.next + 2,
         accounts := Accounts(db.accounts.users[id := changed],
                              AddSession(rest, db.now, db.config.sessionTtl, id, changed.version, db.next))),
     SignedIn(db.next))
  }

  /** One turn of change_password. */
  function PasswordAttempt(db: Db, r: nat): (Db, Response) {
    match PasswordTurn(db, r)
    case Deny(e) => (db, Refused(e))
    case Again(hash) =>
      var f := db.flights[r];
      (db.(flights := db.flights[r := ChangingPassword(f.user, f.token, f.password, f.replacement, hash, f.left - 1)]),
       TryAgain)
    case Through => ReplacePassword(db, db.flights[r].user, db.flights[r].replacement)
  }

  /** The set-password command of backend/src/alpha/cli.py. */
  ghost function SetPassword(db: Db, email: Name, password: string): (Db, Response) {
    match UserWithEmail(db.accounts.users, email)
    case None => (db, Refused(UserNotFound))
    case Some(id) =>
      if id !in db.accounts.users then (db, Refused(UserNotFound))
      else
        var user := db.accounts.users[id];
        var changed := user.(hash := PasswordHash(db.next, password), mustChange := true, version := user.version + 1);
        (db.(next := db.next + 1,
             accounts := Accounts(db.accounts.users[id := changed], WithoutSessionsOf(db.accounts.sessions, id))),
         Done)
  }
}
