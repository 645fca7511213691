/** One invariant of the whole database, kept by every handler and over every run. */
module Soundness {
  import opened Basics
  import opened Schema
  import opened Services
  import opened Database
  import opened TeamRoutes
  import opened SubmitRoute
  import opened AuthRoutes
  import opened AdminRoutes
  import opened Contest
  import opened WriteSets
  import opened TeamInvariants
  import opened SubmissionInvariants
  import F = FrozenBoard
  import C = ChallengeAccess
  import R = RegistrationCodes
  import K = Credentials
  import G = PrerequisiteGraph

  ghost predicate Sound(db: Db) {
    F.BoardInv(db) && R.RegInv(db) && K.CredInv(db) && K.SessionsCapped(db.accounts.sessions, db.now)
  }

  lemma HandleDraws(db: Db, c: Command)
    requires K.CredInv(db)
    ensures K.CredInv(Handle(db, c).0)
  {
    hide Handle, K.CredInv, K.SessionsDrawn, K.FlightsDrawn, K.AccountsGrow;
    K.HandleDrawsSessions(db, c);
    K.HandleDrawsFlights(db, c);
    K.HandleGrowsAccounts(db, c);
    HandleWrites(db, c);
    K.DrawsKeeps(db, Handle(db, c).0);
  }

  lemma HandleKeepsSound(db: Db, c: Command)
    requires Sound(db) && Timely(db, c)
    ensures Sound(Handle(db, c).0)
  {
    hide Handle, Timely, F.EventInv, TeamInv, LogInv, C.GraphInv, R.RegInv, K.CredInv, K.SessionsCapped;
    F.HandleKeepsEvent(db, c);
    HandleKeepsTeams(db, c);
    HandleKeepsLog(db, c);
    C.HandleKeepsGraph(db, c);
    R.HandleKeepsReg(db, c);
    HandleDraws(db, c);
    K.HandleKeepsCap(db, c);
  }

  lemma StepKeepsSound(db: Db, c: Command)
    requires Sound(db) && Timely(db, c)
    ensures Sound(Step(db, c))
  {
    hide Handle, Step, Timely, F.BoardInv, R.RegInv, K.CredInv, K.SessionsCapped;
    F.StepKeepsBoard(db, c);
    R.StepKeepsReg(db, c);
    K.StepKeepsCred(db, c);
    K.HandleKeepsCap(db, c);
    StepCloses(db, c);
  }

  lemma {:induction false} RunKeepsSound(db: Db, commands: seq<Command>)
    requires Sound(db) && TimelyRun(db, commands)
    ensures Sound(Run(db, commands))
  {
    hide Sound, Step, Timely;
    if commands != [] {
      var n := |commands| - 1;
      TimelyPrefix(db, commands, n);
      RunKeepsSound(db, commands[..n]);
      assert Timely(Run(db, commands[..n]), commands[n]);
      StepKeepsSound(Run(db, commands[..n]), commands[n]);
    }
  }

  lemma BootstrappedSound(db: Db)
    requires Bootstrapped(db)
    ensures Sound(db)
  {
    F.BootstrappedBoard(db);
    R.BootstrappedReg(db);
    K.BootstrappedCred(db);
    hide F.BoardInv, R.RegInv, K.CredInv;
    forall u ensures |K.Active(db.accounts.sessions, u, db.now)| == 0 {
      assert K.Active(db.accounts.sessions, u, db.now) == {};
    }
  }

  /** Over all runs from the bootstrapped state. */
  lemma {:induction false} AlwaysSound(db: Db, commands: seq<Command>)
    requires Bootstrapped(db) && TimelyRun(db, commands)
    ensures Sound(Run(db, commands))
  {
    hide Sound, Run, Bootstrapped, TimelyRun;
    BootstrappedSound(db);
    RunKeepsSound(db, commands);
  }

  // ---------- the same, handler by handler ----------

  lemma TeamRoutesKeepSound(db: Db, c: Command)
    requires Sound(db) && OnTeams(c)
    ensures c.DoCreateTeam? ==> Sound(CreateTeam(db, c.r, c.name).0)
    ensures c.DoJoinTeam? ==> Sound(JoinTeam(db, c.r, c.invite).0)
    ensures c.DoRotateInvite? ==> Sound(RotateInvite(db, c.r).0)
    ensures c.DoTransferOwner? ==> Sound(TransferOwner(db, c.r, c.target).0)
    ensures c.DoRemoveMember? ==> Sound(RemoveMember(db, c.r, c.target).0)
    ensures c.DoLeaveTeam? ==> Sound(LeaveTeam(db, c.r).0)
  {
    hide Sound, Handle, HandleBegin, HandleAccounts, HandleSetup, SubmitFlag, UpdateEvent, RegisterFinish,
         LoginAttempt, PasswordAttempt, CreateTeam, JoinTeam, RotateInvite, TransferOwner, RemoveMember, LeaveTeam;
    HandleIs(db, c);
    HandleKeepsSound(db, c);
  }

  lemma BeginKeepsSound(db: Db, c: Command)
    requires Sound(db) && OnBegin(c)
    ensures c.DoAuthenticate? ==> Sound(Authenticate(db, c.token, c.rate).0)
    ensures c.DoRegisterBegin? ==> Sound(RegisterBegin(db, c.email, c.username, c.password, c.access, c.rate).0)
    ensures c.DoLoginBegin? ==> Sound(LoginBegin(db, c.email, c.password, c.rate).0)
    ensures c.DoPasswordBegin? ==> Sound(PasswordBegin(db, c.token, c.password, c.replacement, c.rate, c.userRate).0)
  {
    hide Sound, Handle, HandleTeams, HandleAccounts, HandleSetup, SubmitFlag, UpdateEvent, RegisterFinish,
         LoginAttempt, PasswordAttempt, Authenticate, RegisterBegin, LoginBegin, PasswordBegin;
    HandleIs(db, c);
    HandleKeepsSound(db, c);
  }

  lemma AccountsKeepSound(db: Db, c: Command)
    requires Sound(db) && OnAccounts(c)
    ensures c.DoRegisterFinish? ==> Sound(RegisterFinish(db, c.r, c.suffix).0)
    ensures c.DoLoginAttempt? ==> Sound(LoginAttempt(db, c.r, c.rehash).0)
    ensures c.DoLogout? ==> Sound(Logout(db, c.token).0)
    ensures c.DoPasswordAttempt? ==> Sound(PasswordAttempt(db, c.r).0)
    ensures c.DoSetPassword? ==> Sound(SetPassword(db, c.email, c.password).0)
    ensures c.DoUpdateUserStatus? ==> Sound(UpdateUserStatus(db, c.id, c.active).0)
  {
    hide Sound, Handle, HandleTeams, HandleBegin, HandleSetup, SubmitFlag, UpdateEvent, RegisterFinish,
         LoginAttempt, PasswordAttempt, Logout, SetPassword, UpdateUserStatus;
    HandleIs(db, c);
    HandleKeepsSound(db, c);
  }

  lemma SetupKeepsSound(db: Db, c: Command)
    requires Sound(db) && OnSetup(c) && Timely(db, c)
    ensures c.DoCreateChallenge? ==> Sound(CreateChallenge(db, c.challenge).0)
    ensures c.DoUpdateChallenge? ==> Sound(UpdateChallenge(db, c.id, c.patch, c.checked).0)
    ensures c.DoDeleteChallenge? ==> Sound(DeleteChallenge(db, c.id).0)
    ensures c.DoSetVisibility? ==> Sound(SetVisibility(db, c.id, c.visible).0)
    ensures c.DoCreateCode? ==> Sound(CreateCode(db, c.maxUses, c.expires).0)
    ensures c.DoRevokeCode? ==> Sound(RevokeCode(db, c.code).0)
  {
    hide Sound, Handle, HandleTeams, HandleBegin, HandleAccounts, SubmitFlag, UpdateEvent, RegisterFinish,
         LoginAttempt, PasswordAttempt, CreateChallenge, UpdateChallenge, DeleteChallenge, SetVisibility,
         CreateCode, RevokeCode, Timely;
    HandleIs(db, c);
    HandleKeepsSound(db, c);
  }

  lemma OthersKeepSound(db: Db, c: Command)
    requires Sound(db) && Timely(db, c)
    ensures c.DoSubmit? ==> Sound(SubmitFlag(db, c.r, c.attempt).0)
    ensures c.DoUpdateEvent? ==> Sound(UpdateEvent(db, c.eventPatch, c.checked).0)
    ensures c.Elapse? ==> Sound(db.(now := db.now + c.dt))
  {
    hide Sound, Handle, HandleTeams, HandleBegin, HandleAccounts, HandleSetup, SubmitFlag, UpdateEvent, RegisterFinish,
         LoginAttempt, PasswordAttempt, Timely;
    HandleIs(db, c);
    HandleKeepsSound(db, c);
  }

  // ---------- what the unique indexes and the graph give a handler ----------

  predicate InvitesUnique(teams: map<Id, Team>) {
    forall t, s :: t in teams && s in teams && t != s ==> teams[t].invite != teams[s].invite
  }

  predicate EmailsUnique(users: map<Id, User>) {
    forall u, v :: u in users && v in users && u != v ==> users[u].email.folded != users[v].email.folded
  }

  lemma SoundKeys(db: Db)
    requires Sound(db)
    ensures InvitesUnique(db.roster.teams) && EmailsUnique(db.accounts.users) && G.Closed(Graph(db.challenges))
  {
    hide F.EventInv, LogInv, R.RegInv, K.CredInv, K.SessionsCapped, TeamShape, MutationsCapped, G.Closed, G.Acyclic,
         SlugsUnique;
  }

  // ---------- a replay outlives its author's session ----------

  /** A request that authenticated before a suspension writes nothing, but a replay of a stored key of its team is
      still answered with the stored verdict, exactly while submissions are open and the flag is not too long: the key
      is looked up before the account is locked. */
  lemma RevokedReplayIsAnswered(db: Db, r: nat, u: Id, v: nat, i: nat, a: Attempt)
    requires Sound(db) && K.DeadFlight(db, r, u, v) && r in db.flights && i < |db.log.submissions|
    requires u in db.roster.members && db.roster.members[u].team == db.log.submissions[i].team
    requires a.challenge == db.log.submissions[i].challenge && a.key == db.log.submissions[i].key
    ensures SubmitFlag(db, r, a).0 == db
    ensures AllowsSubmission(db.event, a.gateAt) && |a.flag| <= db.config.maxFlagLength
            <==> SubmitFlag(db, r, a).1 == SubmissionResult(db.log.solves, db.log.submissions[i])
  {
    hide F.EventInv, LogInv, TeamInv, C.GraphInv, R.RegInv, K.CredInv, K.SessionsCapped, SubmitFlag, AllowsSubmission,
         K.Dead, SolveOf;
    ReplayIsHarmless(db, [], i, r, a);
  }
}
