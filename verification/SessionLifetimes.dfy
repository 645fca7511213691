/** How long a session lasts: it is accepted from the moment it is opened until its time to live has passed, as long as
    its account is active and has not moved on a generation, and never again afterwards. */
module SessionLifetimes {
  import opened Basics
  import opened Schema
  import opened Database
  import opened TeamRoutes
  import opened SubmitRoute
  import opened AuthRoutes
  import opened AdminRoutes
  import opened Contest
  import opened WriteSets
  import opened Credentials
  import R = RegistrationCodes

  /** The session is there and has not expired, and its account is active and of its generation. */
  predicate Stands(db: Db, t: nat) {
    && t in db.accounts.sessions
    && var s := db.accounts.sessions[t];
    && db.now < s.expires && s.user in db.accounts.users
    && db.accounts.users[s.user].active && db.accounts.users[s.user].version == s.version
  }

  /** Authentication succeeds exactly with a session that stands, and then remembers whose it is; otherwise it is
      refused and changes nothing. So is the first step of a password change. */
  lemma SignedInExactly(db: Db, t: nat)
    ensures var (db', answer) := Authenticate(db, t, true);
            if Stands(db, t) then
              var user := db.accounts.sessions[t].user;
              && answer == Started(db.next)
              && db' == db.(next := db.next + 1, flights := db'.flights)
              && db'.flights == db.flights[db.next := Authenticated(user, db.accounts.users[user].version, t)]
            else (db', answer) == (db, Refused(InvalidSession))
    ensures !Stands(db, t) ==> forall current, replacement, rate ::
              PasswordBegin(db, t, current, replacement, true, rate) == (db, Refused(InvalidSession))
    ensures forall rate :: !rate ==> Authenticate(db, t, rate) == (db, Refused(RateLimited))
  {
  }

  // ---------- expiry is for ever ----------

  /** The token was drawn, and its session, if it is still there, has expired. */
  predicate Lapsed(db: Db, t: nat) {
    t < db.next && (t in db.accounts.sessions ==> db.accounts.sessions[t].expires <= db.now)
  }

  lemma StepKeepsLapsed(db: Db, c: Command, t: nat)
    requires CredInv(db) && Lapsed(db, t) && Timely(db, c)
    ensures Lapsed(Step(db, c), t)
  {
    R.ClockAdvances(db, c);
    hide CredInv, Handle, Step, FlightsDrawn, Timely;
    StepDraws(db, c);
    StepCloses(db, c);
  }

  lemma {:induction false} RunKeepsLapsed(db: Db, commands: seq<Command>, t: nat)
    requires CredInv(db) && Lapsed(db, t) && TimelyRun(db, commands)
    ensures Lapsed(Run(db, commands), t)
  {
    hide CredInv, Lapsed, Step, Timely;
    if commands != [] {
      var n := |commands| - 1;
      TimelyPrefix(db, commands, n);
      RunKeepsLapsed(db, commands[..n], t);
      RunKeepsCred(db, commands[..n]);
      assert Timely(Run(db, commands[..n]), commands[n]);
      StepKeepsLapsed(Run(db, commands[..n]), commands[n], t);
    }
  }

  lemma LapsedCannotSubmit(db: Db, t: nat, r: nat, a: Attempt)
    requires Lapsed(db, t) && r in db.flights && db.flights[r].Authenticated? && db.flights[r].token == t
    ensures SubmitFlag(db, r, a).0 == db
  {
    assert !StillSignedIn(db, db.flights[r]);
    hide StoredUnder, IsSolved, Attempts, EventAttempts, IsAccessible, StillSignedIn;
  }

  lemma LapsedCannotChange(db: Db, t: nat, r: nat)
    requires Lapsed(db, t) && r in db.flights && db.flights[r].ChangingPassword? && db.flights[r].token == t
    ensures PasswordAttempt(db, r) == (db, Refused(InvalidSession))
  {
    hide AddSession, WithoutSessionsOf;
  }

  /** Over every run from bootstrap: once the clock has reached the expiry of a session, every later step refuses it.
      Authentication and password change answer that it is invalid and change nothing, and a request that came with it
      before writes no submission and changes no password. */
  lemma ExpiryIsForEver(start: Db, before: seq<Command>, later: seq<Command>, t: nat)
    requires Bootstrapped(start) && TimelyRun(Run(start, before), later)
    requires var db := Run(start, before); t in db.accounts.sessions && db.accounts.sessions[t].expires <= db.now
    ensures var end := Run(Run(start, before), later);
            && Authenticate(end, t, true) == (end, Refused(InvalidSession))
            && (forall current, replacement, rate ::
                  PasswordBegin(end, t, current, replacement, true, rate) == (end, Refused(InvalidSession)))
            && (forall r, a :: r in end.flights && end.flights[r].Authenticated? && end.flights[r].token == t ==>
                  SubmitFlag(end, r, a).0 == end)
            && (forall r :: r in end.flights && end.flights[r].ChangingPassword? && end.flights[r].token == t ==>
                  PasswordAttempt(end, r) == (end, Refused(InvalidSession)))
  {
    var db := Run(start, before);
    var end := Run(db, later);
    BootstrappedCred(start);
    hide Run, Bootstrapped, TimelyRun, SubmitFlag, PasswordAttempt, PasswordBegin, Authenticate;
    RunKeepsCred(start, before);
    assert t < db.next;
    hide CredInv;
    RunKeepsLapsed(db, later, t);
    SignedInExactly(end, t);
    assert !Stands(end, t);
    forall r, a | r in end.flights && end.flights[r].Authenticated? && end.flights[r].token == t
      ensures SubmitFlag(end, r, a).0 == end
    {
      LapsedCannotSubmit(end, t, r, a);
    }
    forall r | r in end.flights && end.flights[r].ChangingPassword? && end.flights[r].token == t
      ensures PasswordAttempt(end, r) == (end, Refused(InvalidSession))
    {
      LapsedCannotChange(end, t, r);
    }
  }

  // ---------- and comes when the time to live has passed ----------

  /** Every session was opened by now and lasts the configured time. */
  ghost predicate Dated(db: Db) {
    forall t :: t in db.accounts.sessions ==>
      var s := db.accounts.sessions[t]; s.created <= db.now && s.expires == s.created + db.config.sessionTtl
  }

  lemma AccountsDate(db: Db, c: Command)
    requires Dated(db) && OnAccounts(c)
    ensures Dated(HandleAccounts(db, c).0)
  {
    hide MayRegister, NameTaken, UseCode, Excess, UserWithEmail, LoginTurn, PasswordTurn;
  }

  lemma StepKeepsDated(db: Db, c: Command)
    requires Dated(db) && Timely(db, c)
    ensures Dated(Step(db, c))
  {
    R.ClockAdvances(db, c);
    hide Handle, HandleTeams, HandleBegin, HandleAccounts, HandleSetup, RegisterFinish, LoginAttempt, PasswordAttempt,
         SubmitFlag, UpdateEvent, Step, Timely;
    HandleIs(db, c);
    HandleWrites(db, c);
    StepCloses(db, c);
    if OnAccounts(c) {
      AccountsDate(db, c);
    }
  }

  /** In every state a timely run reaches, a session is accepted exactly as long as the configured time has not passed
      since it was opened, its account is active, and the account has not moved on. */
  lemma {:induction false} SessionsLastTheirTime(start: Db, commands: seq<Command>)
    requires Bootstrapped(start) && TimelyRun(start, commands)
    ensures Dated(Run(start, commands))
    ensures var db := Run(start, commands);
            forall t :: t in db.accounts.sessions ==>
              var s := db.accounts.sessions[t];
              Authenticate(db, t, true).1.Started? <==>
                && db.now < s.created + db.config.sessionTtl
                && s.user in db.accounts.users && db.accounts.users[s.user].active
                && db.accounts.users[s.user].version == s.version
  {
    RunDates(start, commands);
    hide Run, Bootstrapped, TimelyRun;
    var db := Run(start, commands);
    forall t ensures Authenticate(db, t, true).1.Started? <==> Stands(db, t) { SignedInExactly(db, t); }
  }

  lemma {:induction false} RunDates(start: Db, commands: seq<Command>)
    requires Bootstrapped(start) && TimelyRun(start, commands)
    ensures Dated(Run(start, commands))
  {
    if commands != [] {
      var n := |commands| - 1;
      TimelyPrefix(start, commands, n);
      RunDates(start, commands[..n]);
      assert Timely(Run(start, commands[..n]), commands[n]);
      StepKeepsDated(Run(start, commands[..n]), commands[n]);
      hide Dated, Step, Bootstrapped;
    }
  }
}
