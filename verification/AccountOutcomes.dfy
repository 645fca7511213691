/** What registration, sign-in, password change, recovery, logout and suspension come to: when each is refused and how,
    and otherwise what it leaves of the account, its sessions and everybody else's. */
module AccountOutcomes {
  import opened Basics
  import opened Schema
  import opened Services
  import opened Database
  import opened AuthRoutes
  import opened AdminRoutes
  import opened TeamInvariants
  import T = TeamOutcomes

  // ---------- registration ----------

  /** The code can be used at this instant: not withdrawn, not expired, not used up. */
  predicate Usable(code: Code, now: Time) {
    && code.active && code.revokedAt.None?
    && (code.expires.Some? ==> now < code.expires.value) && (code.maxUses.Some? ==> code.uses < code.maxUses.value)
  }

  /** Why a registration is refused, at either of its two looks. */
  ghost function Hindrance(db: Db, email: Name, username: Name, access: Option<nat>): Option<Error> {
    if !T.TakesRegistrations(db.event, db.now) then Some(RegistrationClosed)
    else if db.event.access == CodeOnly
      && !(access.Some? && access.value in db.registry.codes && Usable(db.registry.codes[access.value], db.now))
    then Some(RegistrationAccessDenied)
    else if !(forall u :: u in db.accounts.users ==>
                db.accounts.users[u].email.folded != email.folded
                && db.accounts.users[u].username.folded != username.folded)
    then Some(AccountExists)
    else if |Participants(db.accounts.users)| >= 100000 then Some(ParticipantCapacityReached)
    else None
  }

  lemma MayRegisterExactly(db: Db, email: Name, username: Name, access: Option<nat>)
    ensures var hindrance := Hindrance(db, email, username, access);
            MayRegister(db, email, username, access)
            == if hindrance.Some? then Failure(hindrance.value)
               else Success(if db.event.access == CodeOnly then access else None)
  {
    hide Participants;
  }

  /** The first look remembers what was asked for, and writes nothing else. */
  lemma RegisterBeginOutcome(
    db: Db, email: Name, username: Name, password: string, access: Option<nat>, rate: bool)
    ensures var result := RegisterBegin(db, email, username, password, access, rate);
            var hindrance := Hindrance(db, email, username, access);
            if !rate then result == (db, Refused(RateLimited))
            else if hindrance.Some? then result == (db, Refused(hindrance.value))
            else
              var asked := db.flights[db.next := Registering(email, username, password, access)];
              result == (db.(flights := asked, next := db.next + 1), Started(db.next))
  {
    MayRegisterExactly(db, email, username, access);
    hide MayRegister, Hindrance;
  }

  /** This code has been used once more, and no other has changed. */
  predicate OneMoreUse(before: map<nat, Code>, after: map<nat, Code>, access: Option<nat>) {
    && access.Some? && access.value in before && after.Keys == before.Keys
    && (forall k :: k in before && k != access.value ==> after[k] == before[k])
    && var a, b := before[access.value], after[access.value];
       b == Code(a.maxUses, a.uses + 1, a.expires, a.active, a.revokedAt)
  }

  /** A new account as it was asked for: an active participant of generation 0 with that password, and a session. */
  ghost predicate AccountOpened(db: Db, db': Db, f: Flight, id: Id, salt: nat, token: nat)
    requires f.Registering?
  {
    && id !in db.accounts.users && token in db'.accounts.sessions
    && db'.accounts.users
       == db.accounts.users[
            id := User(f.email, f.username, PasswordHash(salt, f.password), Participant, true, false, 0)]
    && db'.accounts.sessions[token] == Session(id, 0, db.now, db.now + db.config.sessionTtl)
  }

  /** In an individual event, a team of its own. */
  ghost predicate SoloFounded(db: Db, db': Db, solo: Name, id: Id, team: Id, invite: nat) {
    && team !in db.roster.teams && T.UnknownInvite(db.roster.teams, invite)
    && db'.roster.teams == db.roster.teams[team := Team(solo, invite, id)]
    && db'.roster.members == db.roster.members[id := Membership(team, Owner)]
    && db'.roster.audits == db.roster.audits + [Audit(id, SoloCreated)]
  }

  /** The name of a personal team. */
  function OwnName(f: Flight, suffix: string): Name
    requires f.Registering?
  {
    Name(f.username.text + "-" + suffix, f.username.folded + "-" + suffix)
  }

  lemma RowsOfAccount(db: Db, f: Flight, code: Option<nat>, suffix: string)
    requires TeamInv(db) && f.Registering? && OpenAccount(db, f, code, suffix).1.SignedIn?
    ensures var (db', answer) := OpenAccount(db, f, code, suffix);
            && AccountOpened(db, db', f, db.next, db.next + 4, answer.token)
            && db'.registry.codes == UseCode(db.registry.codes, code)
            && (db.event.mode == Teams ==> db'.roster == db.roster)
            && (db.event.mode == Individual ==>
                  SoloFounded(db, db', OwnName(f, suffix), db.next, db.next + 1, db.next + 2))
  {
    hide Excess, TeamShape, MutationsCapped, AccountKeys, UseCode, NameTaken;
  }

  lemma OpensUnlessNamed(db: Db, f: Flight, code: Option<nat>, suffix: string)
    requires f.Registering?
    ensures var (db', answer) := OpenAccount(db, f, code, suffix);
            if db.event.mode == Individual
               && exists t :: t in db.roster.teams && db.roster.teams[t].name.folded == OwnName(f, suffix).folded
            then (db', answer) == (db, Refused(AccountExists))
            else answer.SignedIn?
  {
    hide UseCode, AddSession;
  }

  /** The second look opens the account, uses the code, if the event demands one, once more, and in an individual
      event founds the team, if its name is free; a refusal changes nothing. */
  lemma RegisterFinishOutcome(db: Db, r: nat, suffix: string)
    requires TeamInv(db) && r in db.flights && db.flights[r].Registering?
    ensures var f := db.flights[r]; var (db', answer) := RegisterFinish(db, r, suffix);
            var hindrance := Hindrance(db, f.email, f.username, f.access);
            if hindrance.Some? then (db', answer) == (db, Refused(hindrance.value))
            else if db.event.mode == Individual
              && exists t :: t in db.roster.teams && db.roster.teams[t].name.folded == OwnName(f, suffix).folded
            then (db', answer) == (db, Refused(AccountExists))
            else
              && answer.SignedIn?
              && (if db.event.access == CodeOnly then OneMoreUse(db.registry.codes, db'.registry.codes, f.access)
                  else db'.registry.codes == db.registry.codes)
              && exists id: Id, salt: nat ::
                   && AccountOpened(db, db', f, id, salt, answer.token)
                   && (if db.event.mode == Individual then
                         exists team: Id, invite: nat :: SoloFounded(db, db', OwnName(f, suffix), id, team, invite)
                       else db'.roster == db.roster)
  {
    var f := db.flights[r];
    MayRegisterExactly(db, f.email, f.username, f.access);
    if Hindrance(db, f.email, f.username, f.access).None? {
      var code := if db.event.access == CodeOnly then f.access else None;
      OpensUnlessNamed(db, f, code, suffix);
      if OpenAccount(db, f, code, suffix).1.SignedIn? { RowsOfAccount(db, f, code, suffix); }
    }
    hide MayRegister, OpenAccount, AccountOpened, SoloFounded, TeamInv, Participants, T.TakesRegistrations;
  }

  // ---------- signing in ----------

  /** Who may sign in with these: an active account of this email and password. */
  predicate Matches(db: Db, u: Id, email: Name, password: string) {
    && u in db.accounts.users && db.accounts.users[u].email.folded == email.folded
    && db.accounts.users[u].active && db.accounts.users[u].hash.password == password
  }

  /** login before its loop: with the right credentials of an active account it remembers the hash it verified, and has
      three rounds; with any others it is refused, whatever is wrong with them. */
  lemma LoginBeginOutcome(db: Db, email: Name, password: string, rate: bool)
    requires TeamInv(db)
    ensures var result := LoginBegin(db, email, password, rate);
            if !rate then result == (db, Refused(RateLimited))
            else
              && ((forall u :: !Matches(db, u, email, password)) ==> result == (db, Refused(InvalidCredentials)))
              && forall u :: Matches(db, u, email, password) ==>
                   var asked := db.flights[db.next := LoggingIn(u, password, db.accounts.users[u].hash, 3)];
                   result == (db.(flights := asked, next := db.next + 1), Started(db.next))
  {
    hide TeamShape, TeamKeys, MutationsCapped, Participants;
    forall u | u in db.accounts.users && db.accounts.users[u].email.folded == email.folded
      ensures UserWithEmail(db.accounts.users, email) == Some(u)
    {
      assert HasEmail(db.accounts.users, email, u);
    }
    var found := UserWithEmail(db.accounts.users, email);
    if found.Some? && !Matches(db, found.value, email, password) {
      forall u ensures !Matches(db, u, email, password) { }
    }
  }

  /** How a round of either credential loop goes, once account and session are in order. */
  datatype Round = Goes | Retries(verified: PasswordHash) | Fails(error: Error)

  function RoundOf(user: User, verified: PasswordHash, password: string, left: nat, wrong: Error): Round {
    if user.hash == verified then Goes
    else if user.hash.password != password then Fails(wrong)
    else if left <= 1 then Fails(CredentialChanged)
    else Retries(user.hash)
  }

  /** The account with the present password, under a salt never drawn before if a new hash is due. */
  predicate Rehashed(before: User, after: User, rehash: bool, drawn: nat) {
    && after.hash.password == before.hash.password
    && (if rehash then after.hash.salt >= drawn else after.hash == before.hash)
    && after == before.(hash := after.hash)
  }

  /** One round of login: through while the verified hash is still the account's, round again while the password
      still verifies, and refused otherwise. */
  lemma LoginAttemptOutcome(db: Db, r: nat, rehash: bool)
    requires r in db.flights && db.flights[r].LoggingIn? && db.flights[r].verified.password == db.flights[r].password
    ensures var f := db.flights[r]; var (db', answer) := LoginAttempt(db, r, rehash);
            if f.user !in db.accounts.users || !db.accounts.users[f.user].active
            then (db', answer) == (db, Refused(InvalidCredentials))
            else
              var user := db.accounts.users[f.user];
              match RoundOf(user, f.verified, f.password, f.left, InvalidCredentials)
              case Fails(e) => (db', answer) == (db, Refused(e))
              case Retries(hash) =>
                && answer == TryAgain && f.left > 1
                && db' == db.(flights := db.flights[r := LoggingIn(f.user, f.password, hash, f.left - 1)])
              case Goes =>
                && answer.SignedIn? && db'.accounts.users.Keys == db.accounts.users.Keys
                && Rehashed(user, db'.accounts.users[f.user], rehash, db.next)
                && (forall u :: u in db.accounts.users && u != f.user ==>
                      db'.accounts.users[u] == db.accounts.users[u])
                && answer.token in db'.accounts.sessions
                && db'.accounts.sessions[answer.token]
                   == Session(f.user, user.version, db.now, db.now + db.config.sessionTtl)
  {
    hide Excess;
  }

  /** change_password before its loop: an accepted session, room in both rate windows and the present password. */
  lemma PasswordBeginOutcome(
    db: Db, token: nat, current: string, replacement: string, rate: bool, userRate: bool)
    ensures var result := PasswordBegin(db, token, current, replacement, rate, userRate);
            if !rate then result == (db, Refused(RateLimited))
            else if !Accepts(db, token) then result == (db, Refused(InvalidSession))
            else if !userRate then result == (db, Refused(RateLimited))
            else
              var u := db.accounts.sessions[token].user;
              var hash := db.accounts.users[u].hash;
              if hash.password != current then result == (db, Refused(InvalidCurrentPassword))
              else
                var asked := db.flights[db.next := ChangingPassword(u, token, current, replacement, hash, 3)];
                result == (db.(flights := asked, next := db.next + 1), Started(db.next))
  {
    hide Accepts;
  }

  /** The very session of the request still stands. */
  predicate OwnSessionStands(db: Db, f: Flight)
    requires f.ChangingPassword?
  {
    && f.user in db.accounts.users && db.accounts.users[f.user].active && f.token in db.accounts.sessions
    && var s := db.accounts.sessions[f.token];
    s.user == f.user && db.now < s.expires && s.version == db.accounts.users[f.user].version
  }

  /** One round of change_password. */
  lemma PasswordAttemptOutcome(db: Db, r: nat)
    requires r in db.flights && db.flights[r].ChangingPassword?
    ensures var f := db.flights[r]; var (db', answer) := PasswordAttempt(db, r);
            if !OwnSessionStands(db, f) then (db', answer) == (db, Refused(InvalidSession))
            else
              match RoundOf(db.accounts.users[f.user], f.verified, f.password, f.left, InvalidCurrentPassword)
              case Fails(e) => (db', answer) == (db, Refused(e))
              case Retries(hash) =>
                && answer == TryAgain && f.left > 1
                && db' == db.(flights :=
                       db.flights[r := ChangingPassword(f.user, f.token, f.password, f.replacement, hash, f.left - 1)])
              case Goes => answer.SignedIn?
  {
    hide AddSession, WithoutSessionsOf;
  }

  // ---------- recovery, logout, suspension ----------

  /** Exactly the sessions of other users are left. */
  ghost predicate SessionsEnded(before: map<nat, Session>, after: map<nat, Session>, user: Id) {
    forall t :: (t in after <==> t in before && before[t].user != user) && (t in after ==> after[t] == before[t])
  }

  /** The recovery command gives the account of this email the password, which it must change, one generation on and
      without a session; it touches no other account. */
  lemma SetPasswordOutcome(db: Db, email: Name, password: string)
    requires TeamInv(db)
    ensures var (db', answer) := SetPassword(db, email, password);
            && ((forall u :: u in db.accounts.users ==> db.accounts.users[u].email.folded != email.folded) ==>
                  (db', answer) == (db, Refused(UserNotFound)))
            && forall u :: u in db.accounts.users && db.accounts.users[u].email.folded == email.folded ==>
                 var user, user' := db.accounts.users[u], db'.accounts.users[u];
                 && answer == Done && db'.accounts.users == db.accounts.users[u := user']
                 && user'.hash.password == password && db.next <= user'.hash.salt < db'.next
                 && user' == user.(hash := user'.hash, mustChange := true, version := user.version + 1)
                 && SessionsEnded(db.accounts.sessions, db'.accounts.sessions, u)
  {
    hide TeamShape, TeamKeys, MutationsCapped, Participants;
    forall u | u in db.accounts.users && db.accounts.users[u].email.folded == email.folded
      ensures UserWithEmail(db.accounts.users, email) == Some(u)
    {
      assert HasEmail(db.accounts.users, email, u);
    }
  }

  /** Logout ends this session and no other. */
  lemma LogoutOutcome(db: Db, token: nat)
    ensures var (db', answer) := Logout(db, token);
            && answer == Done && db'.accounts.users == db.accounts.users
            && forall t :: (t in db'.accounts.sessions <==> t in db.accounts.sessions && t != token)
                 && (t in db'.accounts.sessions ==> db'.accounts.sessions[t] == db.accounts.sessions[t])
  {
  }

  /** Only participants are suspended or reactivated. A suspension ends all sessions, and the account moves on a
      generation if it was active; a reactivation lets it back in, of the generation it had; nobody else is touched. */
  lemma UserStatusOutcome(db: Db, id: Id, active: bool)
    ensures var (db', answer) := UpdateUserStatus(db, id, active);
            if id !in db.accounts.users || db.accounts.users[id].role != Participant
            then (db', answer) == (db, Refused(ParticipantRequired))
            else
              var user := db.accounts.users[id];
              && answer == Done
              && db'.accounts.users
                 == db.accounts.users[
                      id := user.(active := active,
                                  version := if user.active && !active then user.version + 1 else user.version)]
              && (if active then db'.accounts.sessions == db.accounts.sessions
                  else SessionsEnded(db.accounts.sessions, db'.accounts.sessions, id))
  {
    if id in db.accounts.users {
      assert db.accounts.users[id := db.accounts.users[id]] == db.accounts.users;
    }
  }
}
