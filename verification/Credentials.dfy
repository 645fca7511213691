/** Sessions, generations and requests in flight: what a suspension or a password change revokes. */
module Credentials {
  import opened Basics
  import opened Schema
  import opened Database
  import opened TeamRoutes
  import opened SubmitRoute
  import opened AuthRoutes
  import opened AdminRoutes
  import opened Contest
  import opened WriteSets

  // ---------- what a step may do to accounts, sessions and requests ----------

  ghost predicate AccountsGrow(a: map<Id, User>, b: map<Id, User>) {
    forall u :: u in a ==> u in b && Ages(a[u], b[u])
  }

  /** A session row is an old one or was drawn in this step for the account's present generation. */
  ghost predicate SessionsDrawn(a: Db, b: Db) {
    forall t :: t in b.accounts.sessions ==>
      var s := b.accounts.sessions[t];
      || (t in a.accounts.sessions && a.accounts.sessions[t] == s)
      || (a.next <= t < b.next && s.user in b.accounts.users && s.version == b.accounts.users[s.user].version)
  }

  /** What a request remembers is true of the accounts: a generation that existed, a password that was verified. */
  predicate Remembers(f: Flight, users: map<Id, User>) {
    match f
    case Authenticated(user, version, _) => user in users && version <= users[user].version
    case Registering(_, _, _, _) => true
    case LoggingIn(user, password, verified, _) => verified.password == password
    case ChangingPassword(user, _, password, _, verified, _) => verified.password == password
  }

  /** The token a request authenticated with belongs to its user, as long as it exists. */
  predicate CameWith(f: Flight, sessions: map<nat, Session>)
    requires f.Authenticated?
  {
    f.token in sessions ==> sessions[f.token].user == f.user
  }

  /** A request is an old one, with its authentication unchanged, or one that starts in this step. */
  ghost predicate FlightsDrawn(a: Db, b: Db) {
    forall r :: r in b.flights ==>
      || (r in a.flights && (a.flights[r].Authenticated? ==> b.flights[r] == a.flights[r])
         && (b.flights[r].Authenticated? ==> a.flights[r].Authenticated?)
          && (Remembers(a.flights[r], a.accounts.users) ==> Remembers(b.flights[r], a.accounts.users)))
      || (a.next <= r < b.next && Remembers(b.flights[r], a.accounts.users)
          && (b.flights[r].Authenticated? ==>
                b.flights[r].token in a.accounts.sessions && CameWith(b.flights[r], a.accounts.sessions)))
  }

  ghost predicate CredInv(db: Db) {
    && (forall u :: u in db.accounts.users ==> u < db.next)
    && (forall t :: t in db.accounts.sessions ==>
          t < db.next && db.accounts.sessions[t].user in db.accounts.users
          && db.accounts.sessions[t].version <= db.accounts.users[db.accounts.sessions[t].user].version)
    && (forall r :: r in db.flights ==> r < db.next && Remembers(db.flights[r], db.accounts.users))
    && (forall r :: r in db.flights && db.flights[r].Authenticated? ==>
          db.flights[r].token < db.next && CameWith(db.flights[r], db.accounts.sessions))
  }

  lemma RegisterFinishDraws(db: Db, r: nat, suffix: string)
    requires CredInv(db)
    ensures var db' := RegisterFinish(db, r, suffix).0;
            && SessionsDrawn(db, db') && AccountsGrow(db.accounts.users, db'.accounts.users)
            && forall u :: u in db'.accounts.users ==> u < db'.next
  {
    hide MayRegister, NameTaken, UseCode, Excess, Remembers;
  }

  lemma LoginAttemptDraws(db: Db, r: nat, rehash: bool)
    requires CredInv(db)
    ensures var db' := LoginAttempt(db, r, rehash).0;
            SessionsDrawn(db, db') && FlightsDrawn(db, db')
  {
    hide Excess;
  }

  lemma PasswordAttemptDraws(db: Db, r: nat)
    requires CredInv(db)
    ensures var db' := PasswordAttempt(db, r).0;
            SessionsDrawn(db, db') && FlightsDrawn(db, db')
  {
    hide Excess;
  }

  lemma BeginDraws(db: Db, c: Command)
    requires OnBegin(c)
    ensures FlightsDrawn(db, HandleBegin(db, c).0)
  {
    hide MayRegister, UserWithEmail;
  }

  lemma AccountsDraw(db: Db, c: Command)
    requires CredInv(db) && OnAccounts(c)
    ensures SessionsDrawn(db, HandleAccounts(db, c).0)
  {
    hide RegisterFinish, LoginAttempt, PasswordAttempt, UserWithEmail, CredInv;
    match c
    case DoRegisterFinish(r, suffix) => RegisterFinishDraws(db, r, suffix);
    case DoLoginAttempt(r, rehash) => LoginAttemptDraws(db, r, rehash);
    case DoPasswordAttempt(r) => PasswordAttemptDraws(db, r);
    case _ =>
  }

  lemma HandleDrawsSessions(db: Db, c: Command)
    requires CredInv(db)
    ensures SessionsDrawn(db, Handle(db, c).0)
  {
    hide Handle, HandleTeams, HandleBegin, HandleAccounts, HandleSetup, RegisterFinish, LoginAttempt, PasswordAttempt,
         SubmitFlag, UpdateEvent, CredInv;
    HandleIs(db, c);
    if OnAccounts(c) {
      AccountsDraw(db, c);
    } else {
      HandleWrites(db, c);
    }
  }

  lemma HandleDrawsFlights(db: Db, c: Command)
    requires CredInv(db)
    ensures FlightsDrawn(db, Handle(db, c).0)
  {
    hide Handle, HandleTeams, HandleBegin, HandleAccounts, HandleSetup, RegisterFinish, LoginAttempt, PasswordAttempt,
         SubmitFlag, UpdateEvent, CredInv, Remembers, CameWith;
    HandleIs(db, c);
    if c.DoLoginAttempt? {
      LoginAttemptDraws(db, c.r, c.rehash);
    } else if c.DoPasswordAttempt? {
      PasswordAttemptDraws(db, c.r);
    } else if OnBegin(c) {
      BeginDraws(db, c);
    } else {
      HandleWrites(db, c);
    }
  }

  lemma HandleGrowsAccounts(db: Db, c: Command)
    requires CredInv(db)
    ensures AccountsGrow(db.accounts.users, Handle(db, c).0.accounts.users)
    ensures forall u :: u in Handle(db, c).0.accounts.users ==> u < Handle(db, c).0.next
  {
    hide Handle, HandleTeams, HandleBegin, HandleAccounts, HandleSetup, RegisterFinish, LoginAttempt, PasswordAttempt,
         SubmitFlag, UpdateEvent, Remembers;
    HandleIs(db, c);
    if c.DoRegisterFinish? {
      RegisterFinishDraws(db, c.r, c.suffix);
    } else {
      HandleAges(db, c);
      HandleWrites(db, c);
    }
  }

  /** Everything the revocation argument needs to know about one step. */
  ghost predicate Draws(a: Db, b: Db) {
    && a.next <= b.next && SessionsDrawn(a, b) && FlightsDrawn(a, b) && AccountsGrow(a.accounts.users, b.accounts.users)
    && (forall u :: u in b.accounts.users ==> u < b.next)
  }

  lemma StepDraws(db: Db, c: Command)
    requires CredInv(db)
    ensures Draws(db, Step(db, c))
  {
    hide Handle, Step, CredInv, Remembers, CameWith;
    HandleDrawsSessions(db, c);
    HandleDrawsFlights(db, c);
    HandleGrowsAccounts(db, c);
    HandleWrites(db, c);
    StepCloses(db, c);
  }

  lemma RemembersStays(f: Flight, a: map<Id, User>, b: map<Id, User>)
    requires Remembers(f, a) && AccountsGrow(a, b)
    ensures Remembers(f, b)
  {
  }

  lemma DrawsKeeps(a: Db, b: Db)
    requires CredInv(a) && Draws(a, b)
    ensures CredInv(b)
  {
    hide Remembers;
    forall r | r in b.flights ensures r < b.next && Remembers(b.flights[r], b.accounts.users) {
      RemembersStays(b.flights[r], a.accounts.users, b.accounts.users);
    }
  }

  lemma StepKeepsCred(db: Db, c: Command)
    requires CredInv(db)
    ensures CredInv(Step(db, c))
  {
    hide CredInv, Step, Draws;
    StepDraws(db, c);
    DrawsKeeps(db, Step(db, c));
  }

  lemma {:induction false} RunKeepsCred(db: Db, commands: seq<Command>)
    requires CredInv(db)
    ensures CredInv(Run(db, commands))
  {
    hide CredInv, Step;
    if commands != [] {
      RunKeepsCred(db, commands[..|commands| - 1]);
      StepKeepsCred(Run(db, commands[..|commands| - 1]), commands[|commands| - 1]);
    }
  }

  lemma BootstrappedCred(db: Db)
    requires Bootstrapped(db)
    ensures CredInv(db)
  {
  }

  // ---------- revocation ----------

  /** The account has moved past generation v, and the token, if it is still there at all, has not. */
  predicate Dead(db: Db, t: nat, u: Id, v: nat) {
    && t < db.next && u in db.accounts.users && v < db.accounts.users[u].version
    && (t in db.accounts.sessions ==> db.accounts.sessions[t].user == u && db.accounts.sessions[t].version <= v)
  }

  /** The same of a request that authenticated before. */
  predicate DeadFlight(db: Db, r: nat, u: Id, v: nat) {
    && r < db.next && u in db.accounts.users && v < db.accounts.users[u].version
    && (r in db.flights ==>
          && db.flights[r].Authenticated? && db.flights[r].user == u && db.flights[r].version <= v
          && Dead(db, db.flights[r].token, u, v))
  }

  lemma StepKeepsDead(db: Db, c: Command, t: nat, u: Id, v: nat)
    requires CredInv(db) && Dead(db, t, u, v)
    ensures Dead(Step(db, c), t, u, v)
  {
    hide CredInv, Step, FlightsDrawn;
    StepDraws(db, c);
  }

  lemma StepKeepsDeadFlight(db: Db, c: Command, r: nat, u: Id, v: nat)
    requires CredInv(db) && DeadFlight(db, r, u, v)
    ensures DeadFlight(Step(db, c), r, u, v)
  {
    hide CredInv, Step, SessionsDrawn, Remembers, CameWith, Dead;
    StepDraws(db, c);
    if r in Step(db, c).flights {
      StepKeepsDead(db, c, db.flights[r].token, u, v);
    }
  }

  lemma {:induction false} RunKeepsDead(db: Db, commands: seq<Command>, t: nat, u: Id, v: nat)
    requires CredInv(db) && Dead(db, t, u, v)
    ensures Dead(Run(db, commands), t, u, v)
  {
    hide CredInv, Step, Dead;
    if commands != [] {
      RunKeepsDead(db, commands[..|commands| - 1], t, u, v);
      RunKeepsCred(db, commands[..|commands| - 1]);
      StepKeepsDead(Run(db, commands[..|commands| - 1]), commands[|commands| - 1], t, u, v);
    }
  }

  lemma {:induction false} RunKeepsDeadFlight(db: Db, commands: seq<Command>, r: nat, u: Id, v: nat)
    requires CredInv(db) && DeadFlight(db, r, u, v)
    ensures DeadFlight(Run(db, commands), r, u, v)
  {
    hide CredInv, Step, DeadFlight;
    if commands != [] {
      RunKeepsDeadFlight(db, commands[..|commands| - 1], r, u, v);
      RunKeepsCred(db, commands[..|commands| - 1]);
      StepKeepsDeadFlight(Run(db, commands[..|commands| - 1]), commands[|commands| - 1], r, u, v);
    }
  }

  /** The command that has just succeeded revokes u: a suspension of an active account, a password change by
      its owner, or the recovery command. */
  ghost predicate Revokes(db: Db, c: Command, u: Id) {
    && u in db.accounts.users
    && match c
       case DoUpdateUserStatus(id, active) =>
         id == u && !active && db.accounts.users[u].active && Handle(db, c).1 == Done
       case DoPasswordAttempt(r) =>
         r in db.flights && db.flights[r].ChangingPassword? && db.flights[r].user == u && Handle(db, c).1.SignedIn?
       case DoSetPassword(email, _) => UserWithEmail(db.accounts.users, email) == Some(u)
       case _ => false
  }

  lemma RevocationAdvances(db: Db, c: Command, u: Id)
    requires Revokes(db, c, u)
    ensures var db' := Handle(db, c).0;
            && u in db'.accounts.users && db.accounts.users[u].version < db'.accounts.users[u].version
            && db'.next >= db.next && (forall t :: t in db'.accounts.sessions && t < db.next ==>
                 t in db.accounts.sessions && db'.accounts.sessions[t] == db.accounts.sessions[t]
                   && db.accounts.sessions[t].user != u)
            && (forall r :: r in db'.flights ==> r in db.flights && db'.flights[r] == db.flights[r])
  {
    hide Excess, UserWithEmail;
  }

  /** A suspension or password change is for ever: no session made before it is accepted at any later
      step, not even after reactivation. */
  lemma RevocationEndsSessions(db: Db, c: Command, u: Id, later: seq<Command>, t: nat)
    requires CredInv(db) && Revokes(db, c, u)
    requires t in db.accounts.sessions && db.accounts.sessions[t].user == u
    ensures !Accepts(Run(Step(db, c), later), t)
  {
    var v := db.accounts.users[u].version;
    StepKeepsCred(db, c);
    RevocationAdvances(db, c, u);
    StepCloses(db, c);
    hide Handle, CredInv, Step, Run;
    assert Dead(Step(db, c), t, u, v);
    RunKeepsDead(Step(db, c), later, t, u, v);
  }

  /** What a request that authenticated as u can still do. */
  ghost predicate Powerless(db: Db, r: nat) {
    && (forall name :: CreateTeam(db, r, name).0 == db) && (forall invite :: JoinTeam(db, r, invite).0 == db)
    && RotateInvite(db, r).0 == db && LeaveTeam(db, r).0 == db
    && (forall target :: TransferOwner(db, r, target).0 == db && RemoveMember(db, r, target).0 == db)
    && (forall a :: SubmitFlag(db, r, a).0 == db)
  }

  lemma DeadIsPowerless(db: Db, r: nat, u: Id, v: nat)
    requires DeadFlight(db, r, u, v)
    ensures Powerless(db, r)
  {
    hide Mutations, MembersOf, MemberSubmitted, TeamSubmitted, DropTeam;
    assert Enter(db, r).Failure?;
    hide Enter;
    forall a ensures SubmitFlag(db, r, a).0 == db {
      DeadCannotSubmit(db, r, u, v, a);
    }
  }

  lemma DeadCannotSubmit(db: Db, r: nat, u: Id, v: nat, a: Attempt)
    requires DeadFlight(db, r, u, v)
    ensures Rule(db, r, a).Reply?
    ensures SubmitFlag(db, r, a).0 == db
  {
    hide StoredUnder, IsSolved, Attempts, EventAttempts, IsAccessible;
  }

  /** No request that authenticated before the revocation commits a team change or a submission after it. */
  lemma RevocationStopsRequests(db: Db, c: Command, u: Id, later: seq<Command>, r: nat)
    requires CredInv(db) && Revokes(db, c, u)
    requires r in db.flights && db.flights[r].Authenticated? && db.flights[r].user == u
    ensures Powerless(Run(Step(db, c), later), r)
  {
    var v := db.accounts.users[u].version;
    StepKeepsCred(db, c);
    RevocationAdvances(db, c, u);
    StepCloses(db, c);
    hide Handle, Step, Run, Powerless;
    assert DeadFlight(Step(db, c), r, u, v);
    hide CredInv;
    RunKeepsDeadFlight(Step(db, c), later, r, u, v);
    DeadIsPowerless(Run(Step(db, c), later), r, u, v);
  }

  /** Signing in takes the account's password of that very moment, whatever was verified before. */
  lemma SignInNeedsCurrentPassword(db: Db, r: nat, rehash: bool)
    requires CredInv(db) && LoginAttempt(db, r, rehash).1.SignedIn?
    ensures r in db.flights && db.flights[r].LoggingIn? && db.flights[r].user in db.accounts.users
    ensures var user := db.accounts.users[db.flights[r].user];
            user.active && user.hash.password == db.flights[r].password
    ensures var (db', answer) := LoginAttempt(db, r, rehash);
            && answer.token !in db.accounts.sessions && (db.config.sessionTtl > 0.0 ==> Accepts(db', answer.token))
            && db'.accounts.sessions[answer.token].user == db.flights[r].user
  {
    hide Excess;
  }

  /** And so does changing it. */
  lemma ChangeNeedsCurrentPassword(db: Db, r: nat)
    requires CredInv(db) && PasswordAttempt(db, r).1.SignedIn?
    ensures r in db.flights && db.flights[r].ChangingPassword? && db.flights[r].user in db.accounts.users
    ensures var user := db.accounts.users[db.flights[r].user];
            user.active && user.hash.password == db.flights[r].password && Accepts(db, db.flights[r].token)
  {
    hide AddSession;
  }

  /** Over all runs: once an account has been suspended or its password changed, the sessions and the
      requests from before are spent at every later step, whatever happens in between. */
  lemma RevocationIsForEver(start: Db, before: seq<Command>, c: Command, u: Id, later: seq<Command>)
    requires Bootstrapped(start) && Revokes(Run(start, before), c, u)
    ensures var db := Run(start, before); var end := Run(Step(db, c), later);
            && (forall t :: t in db.accounts.sessions && db.accounts.sessions[t].user == u ==> !Accepts(end, t))
            && (forall r :: r in db.flights && db.flights[r].Authenticated? && db.flights[r].user == u ==>
                  Powerless(end, r))
  {
    hide Revokes, Run, Step, CredInv, Powerless, Accepts, Bootstrapped;
    var db := Run(start, before);
    BootstrappedCred(start);
    RunKeepsCred(start, before);
    forall t | t in db.accounts.sessions && db.accounts.sessions[t].user == u
      ensures !Accepts(Run(Step(db, c), later), t)
    {
      RevocationEndsSessions(db, c, u, later, t);
    }
    forall r | r in db.flights && db.flights[r].Authenticated? && db.flights[r].user == u
      ensures Powerless(Run(Step(db, c), later), r)
    {
      RevocationStopsRequests(db, c, u, later, r);
    }
  }

  /** A password change leaves the account with the replacement, one generation on, and with exactly one session,
      which is accepted at once; every other account and every other user's session is as before. */
  lemma PasswordChangeTakesEffect(db: Db, r: nat)
    requires CredInv(db) && PasswordAttempt(db, r).1.SignedIn?
    ensures r in db.flights && db.flights[r].ChangingPassword? && db.flights[r].user in db.accounts.users
    ensures var f := db.flights[r]; var (db', answer) := PasswordAttempt(db, r); var user := db'.accounts.users[f.user];
            && user.hash.password == f.replacement && user.version == db.accounts.users[f.user].version + 1
            && !user.mustChange
            && (forall t ::
                  t in db'.accounts.sessions && db'.accounts.sessions[t].user == f.user <==> t == answer.token)
            && (db.config.sessionTtl > 0.0 ==> Accepts(db', answer.token))
            && (forall u :: u in db.accounts.users && u != f.user ==> db'.accounts.users[u] == db.accounts.users[u])
            && (forall t :: t in db.accounts.sessions && db.accounts.sessions[t].user != f.user ==>
                  t in db'.accounts.sessions && db'.accounts.sessions[t] == db.accounts.sessions[t])
  {
    hide NewerActive;
  }

  /** A session that was given up is never accepted again. */
  lemma {:induction false} GoneForEver(db: Db, commands: seq<Command>, t: nat)
    requires CredInv(db) && t < db.next && t !in db.accounts.sessions
    ensures t < Run(db, commands).next && t !in Run(db, commands).accounts.sessions
  {
    hide CredInv, Step, FlightsDrawn;
    if commands != [] {
      var before := Run(db, commands[..|commands| - 1]);
      GoneForEver(db, commands[..|commands| - 1], t);
      RunKeepsCred(db, commands[..|commands| - 1]);
      StepDraws(before, commands[|commands| - 1]);
    }
  }

  lemma {:induction false} LogoutIsForEver(db: Db, t: nat, later: seq<Command>)
    requires CredInv(db) && t in db.accounts.sessions
    ensures !Accepts(Run(Step(db, DoLogout(t)), later), t)
  {
    LogoutRemoves(db, t);
    StepKeepsCred(db, DoLogout(t));
    hide CredInv, Step, Run;
    GoneForEver(Step(db, DoLogout(t)), later, t);
  }

  lemma LogoutRemoves(db: Db, t: nat)
    requires CredInv(db) && t in db.accounts.sessions
    ensures t !in Step(db, DoLogout(t)).accounts.sessions && t < Step(db, DoLogout(t)).next
  {
    hide Remembers, CameWith;
  }

  // ---------- at most ten active sessions ----------

  type Sessions = map<nat, Session>

  function Active(sessions: Sessions, user: Id, now: Time): set<nat> {
    set t | t in sessions && sessions[t].user == user && sessions[t].expires > now
  }

  ghost predicate SessionsCapped(sessions: Sessions, now: Time) {
    forall u :: |Active(sessions, u, now)| <= 10
  }

  /** The sessions of s that are newer than t. */
  function NewerIn(sessions: Sessions, s: set<nat>, t: nat): set<nat>
    requires s <= sessions.Keys && t in sessions
  {
    set x | x in s && Newer(sessions, x, t)
  }

  /** Of a set of sessions that each have fewer than n newer ones in it there are at most n. */
  lemma FewNewer(sessions: Sessions, s: set<nat>, n: nat)
    requires s <= sessions.Keys && forall t :: t in s ==> |NewerIn(sessions, s, t)| < n
    ensures |s| <= n
  {
    if s != {} {
      var oldest := Oldest(sessions, s);
      assert |NewerIn(sessions, s, oldest)| < n;
      assert s == NewerIn(sessions, s, oldest) + {oldest};
    }
  }

  lemma {:induction false} Oldest(sessions: Sessions, s: set<nat>) returns (m: nat)
    requires s <= sessions.Keys && s != {}
    ensures m in s && forall x :: x in s && x != m ==> Newer(sessions, x, m)
    decreases |s|
  {
    m :| m in s;
    if s != {m} {
      var others := s - {m};
      assert others != {} by { assert s == others + {m}; }
      var rest := Oldest(sessions, others);
      assert forall x :: x in s ==> x == m || x in others;
      if Newer(sessions, m, rest) { m := rest; }
    }
  }

  /** _new_session leaves the user nine older sessions at most. */
  lemma AddSessionCaps(sessions: Sessions, now: Time, ttl: Time, user: Id, version: nat, token: nat)
    requires SessionsCapped(sessions, now)
    ensures SessionsCapped(AddSession(sessions, now, ttl, user, version, token), now)
  {
    var after := AddSession(sessions, now, ttl, user, version, token);
    forall u ensures |Active(after, u, now)| <= MAX_ACTIVE_SESSIONS_PER_USER {
      if u == user {
        KeptAreFew(sessions, user, now);
        var kept := Kept(sessions, user, now);
        SubsetCardinality(Active(after, u, now), kept + {token});
      } else {
        SubsetCardinality(Active(after, u, now), Active(sessions, u, now));
      }
    }
  }

  /** It drops nothing else: other users' sessions stay, and the user's own as long as there are nine at most. */
  lemma AddSessionSpares(sessions: Sessions, now: Time, ttl: Time, user: Id, version: nat, token: nat, t: nat)
    requires t in sessions && t != token
    requires sessions[t].user != user || |Active(sessions, user, now)| < MAX_ACTIVE_SESSIONS_PER_USER
    ensures var after := AddSession(sessions, now, ttl, user, version, token); t in after && after[t] == sessions[t]
  {
    if sessions[t].user == user && sessions[t].expires > now {
      var newer := NewerActive(sessions, user, now, t);
      assert t in Active(sessions, user, now) && t !in newer;
      SubsetCardinality(newer + {t}, Active(sessions, user, now));
    }
  }

  /** It keeps the newest: a session of the user that goes while active is older than nine of the user's that stay, and
      than every one that stays. */
  lemma AddSessionKeepsNewest(
    sessions: Sessions, now: Time, ttl: Time, user: Id, version: nat, token: nat, t: nat)
    requires t in sessions && t != token && t !in AddSession(sessions, now, ttl, user, version, token)
    ensures sessions[t].user == user && now < sessions[t].expires
    ensures |NewerActive(sessions, user, now, t)| >= 9
    ensures forall x :: x in sessions && x in AddSession(sessions, now, ttl, user, version, token)
                        && sessions[x].user == user && now < sessions[x].expires && x != token ==>
              sessions[x].created >= sessions[t].created
  {
    forall x | x in sessions && x in AddSession(sessions, now, ttl, user, version, token)
               && sessions[x].user == user && now < sessions[x].expires && x != token
      ensures sessions[x].created >= sessions[t].created
    {
      if sessions[x].created < sessions[t].created {
        SubsetCardinality(NewerActive(sessions, user, now, t), NewerActive(sessions, user, now, x));
      }
    }
  }

  function Kept(sessions: Sessions, user: Id, now: Time): set<nat> {
    set t | t in Active(sessions, user, now) && !Excess(sessions, user, now, t)
  }

  lemma KeptAreFew(sessions: Sessions, user: Id, now: Time)
    ensures |Kept(sessions, user, now)| <= MAX_ACTIVE_SESSIONS_PER_USER - 1
  {
    var kept := Kept(sessions, user, now);
    forall t | t in kept ensures |NewerIn(sessions, kept, t)| < MAX_ACTIVE_SESSIONS_PER_USER - 1 {
      SubsetCardinality(NewerIn(sessions, kept, t), NewerActive(sessions, user, now, t));
    }
    FewNewer(sessions, kept, MAX_ACTIVE_SESSIONS_PER_USER - 1);
  }

  /** Removing rows and letting time pass keeps the cap. */
  lemma FewerActive(a: Sessions, b: Sessions, now: Time, later: Time)
    requires SessionsCapped(a, now) && now <= later && forall t :: t in b ==> t in a && a[t] == b[t]
    ensures SessionsCapped(b, later)
  {
    forall u ensures |Active(b, u, later)| <= MAX_ACTIVE_SESSIONS_PER_USER {
      SubsetCardinality(Active(b, u, later), Active(a, u, now));
    }
  }

  lemma AccountsKeepCap(db: Db, c: Command)
    requires SessionsCapped(db.accounts.sessions, db.now) && OnAccounts(c)
    ensures SessionsCapped(HandleAccounts(db, c).0.accounts.sessions, db.now)
  {
    hide SessionsCapped, UserWithEmail, AddSession, MayRegister, NameTaken, UseCode, LoginTurn, PasswordTurn;
    if c.DoRegisterFinish? {
      AddSessionCaps(db.accounts.sessions, db.now, db.config.sessionTtl, db.next, 0, db.next + 3);
    } else if c.DoLoginAttempt? {
      if LoginTurn(db, c.r).Through? {
        var u := db.flights[c.r].user;
        AddSessionCaps(db.accounts.sessions, db.now, db.config.sessionTtl, u, db.accounts.users[u].version, db.next);
      }
    } else if c.DoPasswordAttempt? {
      if PasswordTurn(db, c.r).Through? {
        var u := db.flights[c.r].user;
        var rest := WithoutSessionsOf(db.accounts.sessions, u);
        FewerActive(db.accounts.sessions, rest, db.now, db.now);
        AddSessionCaps(rest, db.now, db.config.sessionTtl, u, db.accounts.users[u].version + 1, db.next);
      }
    } else {
      FewerActive(db.accounts.sessions, HandleAccounts(db, c).0.accounts.sessions, db.now, db.now);
    }
  }

  lemma HandleKeepsCap(db: Db, c: Command)
    requires SessionsCapped(db.accounts.sessions, db.now) && Timely(db, c)
    ensures SessionsCapped(Handle(db, c).0.accounts.sessions, Handle(db, c).0.now)
  {
    hide Handle, HandleTeams, HandleBegin, HandleAccounts, HandleSetup, RegisterFinish, LoginAttempt, PasswordAttempt,
         SubmitFlag, UpdateEvent, SessionsCapped;
    HandleIs(db, c);
    HandleWrites(db, c);
    if OnAccounts(c) {
      AccountsKeepCap(db, c);
    } else {
      FewerActive(db.accounts.sessions, Handle(db, c).0.accounts.sessions, db.now, Handle(db, c).0.now);
    }
  }

  /** Over all runs nobody holds more than ten active sessions. */
  lemma {:induction false} SessionsAlwaysCapped(db: Db, commands: seq<Command>)
    requires SessionsCapped(db.accounts.sessions, db.now) && TimelyRun(db, commands)
    ensures SessionsCapped(Run(db, commands).accounts.sessions, Run(db, commands).now)
  {
    hide SessionsCapped, Step, Timely;
    if commands != [] {
      var n := |commands| - 1;
      TimelyPrefix(db, commands, n);
      SessionsAlwaysCapped(db, commands[..n]);
      assert Timely(Run(db, commands[..n]), commands[n]);
      HandleKeepsCap(Run(db, commands[..n]), commands[n]);
      StepCloses(Run(db, commands[..n]), commands[n]);
    }
  }
}
