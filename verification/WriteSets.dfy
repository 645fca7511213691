/** Which tables each transaction may touch, and what it may do to an account it does not own. */
module WriteSets {
  import opened Basics
  import opened Schema
  import opened Database
  import opened TeamRoutes
  import opened SubmitRoute
  import opened AuthRoutes
  import opened AdminRoutes
  import opened Contest

  /** The groups of tables a transaction may touch. */
  datatype Touched = Touched(
    clock: bool, event: bool, challenges: bool, accounts: bool, registry: bool, roster: bool, log: bool, flights: bool)

  const NOTHING := Touched(false, false, false, false, false, false, false, false)

  function WriteSet(c: Command): Touched {
    match c
    case Elapse(_) => NOTHING.(clock := true)
    case DoAuthenticate(_, _) => NOTHING.(flights := true)
    case DoCreateTeam(_, _) => NOTHING.(roster := true)
    case DoJoinTeam(_, _) => NOTHING.(roster := true)
    case DoRotateInvite(_) => NOTHING.(roster := true)
    case DoTransferOwner(_, _) => NOTHING.(roster := true)
    case DoRemoveMember(_, _) => NOTHING.(roster := true)
    case DoLeaveTeam(_) => NOTHING.(roster := true, log := true)
    case DoSubmit(_, _) => NOTHING.(log := true)
    case DoRegisterBegin(_, _, _, _, _) => NOTHING.(flights := true)
    case DoRegisterFinish(_, _) => NOTHING.(accounts := true, registry := true, roster := true)
    case DoLoginBegin(_, _, _) => NOTHING.(flights := true)
    case DoLoginAttempt(_, _) => NOTHING.(accounts := true, flights := true)
    case DoLogout(_) => NOTHING.(accounts := true)
    case DoPasswordBegin(_, _, _, _, _) => NOTHING.(flights := true)
    case DoPasswordAttempt(_) => NOTHING.(accounts := true, flights := true)
    case DoSetPassword(_, _) => NOTHING.(accounts := true)
    case DoUpdateEvent(_, _) => NOTHING.(event := true)
    case DoCreateChallenge(_) => NOTHING.(challenges := true)
    case DoUpdateChallenge(_, _, _) => NOTHING.(challenges := true)
    case DoDeleteChallenge(_) => NOTHING.(challenges := true, log := true)
    case DoSetVisibility(_, _) => NOTHING.(challenges := true)
    case DoUpdateUserStatus(_, _) => NOTHING.(accounts := true)
    case DoCreateCode(_, _) => NOTHING.(registry := true)
    case DoRevokeCode(_) => NOTHING.(registry := true)
  }

  /** Apart from the listed tables nothing differs, and no drawn value is drawn again. */
  ghost predicate Within(touched: Touched, a: Db, b: Db) {
    && a.next <= b.next && a.config == b.config
    && (!touched.clock ==> b.now == a.now)
    && (!touched.event ==> b.event == a.event && b.edited == a.edited)
    && (!touched.challenges ==> b.challenges == a.challenges)
    && (!touched.accounts ==> b.accounts == a.accounts)
    && (!touched.registry ==> b.registry == a.registry)
    && (!touched.roster ==> b.roster == a.roster)
    && (!touched.log ==> b.log == a.log)
    && (!touched.flights ==> b.flights == a.flights)
  }

  /** An account keeps its name and role, and its generation never goes back. */
  predicate Ages(a: User, b: User) {
    b.email == a.email && b.username == a.username && b.role == a.role && a.version <= b.version
  }

  /** No transaction but registration adds an account, and none removes one. */
  ghost predicate AccountsAge(a: map<Id, User>, b: map<Id, User>) {
    a.Keys == b.Keys && forall u :: u in a ==> Ages(a[u], b[u])
  }

  // ---------- one handler at a time ----------

  lemma CreateTeamWrites(db: Db, r: nat, name: Name)
    ensures Within(NOTHING.(roster := true), db, CreateTeam(db, r, name).0)
  {
    hide Enter, NameTaken;
  }

  lemma JoinTeamWrites(db: Db, r: nat, invite: nat)
    ensures Within(NOTHING.(roster := true), db, JoinTeam(db, r, invite).0)
  {
    hide Enter, TeamWithInvite, MembersOf;
  }

  lemma RotateInviteWrites(db: Db, r: nat)
    ensures Within(NOTHING.(roster := true), db, RotateInvite(db, r).0)
  {
    hide Enter, OwnTeam;
  }

  lemma TransferOwnerWrites(db: Db, r: nat, target: Id)
    ensures Within(NOTHING.(roster := true), db, TransferOwner(db, r, target).0)
  {
    hide OwnerAndTarget;
  }

  lemma RemoveMemberWrites(db: Db, r: nat, target: Id)
    ensures Within(NOTHING.(roster := true), db, RemoveMember(db, r, target).0)
  {
    hide OwnerAndTarget, MemberSubmitted;
  }

  lemma LeaveTeamWrites(db: Db, r: nat)
    ensures Within(NOTHING.(roster := true, log := true), db, LeaveTeam(db, r).0)
  {
    hide Enter, OwnTeam, MembersOf, MemberSubmitted, TeamSubmitted, DropTeam;
  }

  lemma SubmitFlagWrites(db: Db, r: nat, a: Attempt)
    ensures Within(NOTHING.(log := true), db, SubmitFlag(db, r, a).0)
  {
    hide Rule, IsCorrect, SolveCount;
  }

  lemma RegisterFinishWrites(db: Db, r: nat, suffix: string)
    ensures Within(NOTHING.(accounts := true, registry := true, roster := true), db, RegisterFinish(db, r, suffix).0)
  {
    hide MayRegister, NameTaken, AddSession, UseCode;
  }

  lemma LoginAttemptWrites(db: Db, r: nat, rehash: bool)
    ensures Within(NOTHING.(accounts := true, flights := true), db, LoginAttempt(db, r, rehash).0)
    ensures AccountsAge(db.accounts.users, LoginAttempt(db, r, rehash).0.accounts.users)
  {
    hide AddSession, LoginTurn;
  }

  lemma PasswordAttemptWrites(db: Db, r: nat)
    ensures Within(NOTHING.(accounts := true, flights := true), db, PasswordAttempt(db, r).0)
    ensures AccountsAge(db.accounts.users, PasswordAttempt(db, r).0.accounts.users)
  {
    hide AddSession, WithoutSessionsOf, PasswordTurn;
  }

  lemma SetPasswordWrites(db: Db, email: Name, password: string)
    ensures Within(NOTHING.(accounts := true), db, SetPassword(db, email, password).0)
    ensures AccountsAge(db.accounts.users, SetPassword(db, email, password).0.accounts.users)
  {
    hide UserWithEmail, WithoutSessionsOf;
  }

  lemma UpdateUserStatusWrites(db: Db, id: Id, active: bool)
    ensures Within(NOTHING.(accounts := true), db, UpdateUserStatus(db, id, active).0)
    ensures AccountsAge(db.accounts.users, UpdateUserStatus(db, id, active).0.accounts.users)
  {
    hide WithoutSessionsOf;
  }

  lemma EventWrites(db: Db, p: EventPatch, checked: Time)
    ensures Within(NOTHING.(event := true), db, UpdateEvent(db, p, checked).0)
  {
    hide EventRefusal, Patched;
  }

  lemma CreateWrites(db: Db, challenge: Challenge)
    ensures Within(NOTHING.(challenges := true), db, CreateChallenge(db, challenge).0)
  {
    hide CreateRefusal;
  }

  lemma UpdateWrites(db: Db, id: Id, patch: ChallengePatch, checked: Time)
    ensures Within(NOTHING.(challenges := true), db, UpdateChallenge(db, id, patch, checked).0)
  {
    hide UpdateRefusal, PatchedChallenge, NewScoring;
  }

  lemma DeleteChallengeWrites(db: Db, id: Id)
    ensures Within(NOTHING.(challenges := true, log := true), db, DeleteChallenge(db, id).0)
  {
    hide DropLinks, ChallengeSubmitted, DropChallengeSolves, DropChallengeScores;
  }

  lemma RegisterBeginWrites(db: Db, email: Name, username: Name, password: string, access: Option<nat>, rate: bool)
    ensures Within(NOTHING.(flights := true), db, RegisterBegin(db, email, username, password, access, rate).0)
  {
    hide MayRegister;
  }

  lemma LoginBeginWrites(db: Db, email: Name, password: string, rate: bool)
    ensures Within(NOTHING.(flights := true), db, LoginBegin(db, email, password, rate).0)
  {
    hide UserWithEmail;
  }

  lemma PasswordBeginWrites(
    db: Db, token: nat, password: string, replacement: string, rate: bool, userRate: bool)
    ensures Within(NOTHING.(flights := true), db, PasswordBegin(db, token, password, replacement, rate, userRate).0)
  {
  }

  // ---------- all of them ----------

  lemma TeamsWrite(db: Db, c: Command)
    requires OnTeams(c)
    ensures Within(WriteSet(c), db, HandleTeams(db, c).0)
  {
    hide Within, CreateTeam, JoinTeam, RotateInvite, TransferOwner, RemoveMember, LeaveTeam;
    match c
    case DoCreateTeam(r, name) => CreateTeamWrites(db, r, name);
    case DoJoinTeam(r, invite) => JoinTeamWrites(db, r, invite);
    case DoRotateInvite(r) => RotateInviteWrites(db, r);
    case DoTransferOwner(r, target) => TransferOwnerWrites(db, r, target);
    case DoRemoveMember(r, target) => RemoveMemberWrites(db, r, target);
    case DoLeaveTeam(r) => LeaveTeamWrites(db, r);
  }

  lemma BeginWrites(db: Db, c: Command)
    requires OnBegin(c)
    ensures Within(WriteSet(c), db, HandleBegin(db, c).0)
  {
    hide Within, RegisterBegin, LoginBegin, PasswordBegin, Authenticate;
    match c
    case DoAuthenticate(token, rate) => AuthenticateWrites(db, token, rate);
    case DoRegisterBegin(email, username, password, access, rate) =>
      RegisterBeginWrites(db, email, username, password, access, rate);
    case DoLoginBegin(email, password, rate) => LoginBeginWrites(db, email, password, rate);
    case DoPasswordBegin(token, password, replacement, rate, userRate) =>
      PasswordBeginWrites(db, token, password, replacement, rate, userRate);
  }

  lemma AuthenticateWrites(db: Db, token: nat, rate: bool)
    ensures Within(NOTHING.(flights := true), db, Authenticate(db, token, rate).0)
  {
    hide Accepts;
  }

  lemma AccountsWrite(db: Db, c: Command)
    requires OnAccounts(c)
    ensures Within(WriteSet(c), db, HandleAccounts(db, c).0)
    ensures !c.DoRegisterFinish? ==> AccountsAge(db.accounts.users, HandleAccounts(db, c).0.accounts.users)
  {
    hide Within, AccountsAge, RegisterFinish, LoginAttempt, Logout, PasswordAttempt, SetPassword, UpdateUserStatus;
    match c
    case DoRegisterFinish(r, suffix) => RegisterFinishWrites(db, r, suffix);
    case DoLoginAttempt(r, rehash) => LoginAttemptWrites(db, r, rehash);
    case DoLogout(token) => LogoutWrites(db, token);
    case DoPasswordAttempt(r) => PasswordAttemptWrites(db, r);
    case DoSetPassword(email, password) => SetPasswordWrites(db, email, password);
    case DoUpdateUserStatus(id, active) => UpdateUserStatusWrites(db, id, active);
  }

  lemma LogoutWrites(db: Db, token: nat)
    ensures Within(NOTHING.(accounts := true), db, Logout(db, token).0)
    ensures AccountsAge(db.accounts.users, Logout(db, token).0.accounts.users)
  {
  }

  lemma SetupWrites(db: Db, c: Command)
    requires OnSetup(c)
    ensures Within(WriteSet(c), db, HandleSetup(db, c).0)
  {
    hide Within, CreateChallenge, UpdateChallenge, DeleteChallenge, SetVisibility, CreateCode, RevokeCode;
    match c
    case DoCreateChallenge(challenge) => CreateWrites(db, challenge);
    case DoUpdateChallenge(id, patch, checked) => UpdateWrites(db, id, patch, checked);
    case DoDeleteChallenge(id) => DeleteChallengeWrites(db, id);
    case DoSetVisibility(id, visible) => SetVisibilityWrites(db, id, visible);
    case DoCreateCode(maxUses, expires) => CreateCodeWrites(db, maxUses, expires);
    case DoRevokeCode(code) => RevokeCodeWrites(db, code);
  }

  lemma SetVisibilityWrites(db: Db, id: Id, visible: bool)
    ensures Within(NOTHING.(challenges := true), db, SetVisibility(db, id, visible).0)
  {
  }

  lemma CreateCodeWrites(db: Db, maxUses: Option<nat>, expires: Option<Time>)
    ensures Within(NOTHING.(registry := true), db, CreateCode(db, maxUses, expires).0)
  {
  }

  lemma RevokeCodeWrites(db: Db, id: nat)
    ensures Within(NOTHING.(registry := true), db, RevokeCode(db, id).0)
  {
  }

  /** Every transaction stays within its write set. */
  lemma HandleWrites(db: Db, c: Command)
    ensures Within(WriteSet(c), db, Handle(db, c).0)
  {
    hide Handle, HandleTeams, HandleBegin, HandleAccounts, HandleSetup, RegisterFinish, LoginAttempt, PasswordAttempt,
         SubmitFlag, UpdateEvent;
    HandleIs(db, c);
    if OnTeams(c) {
      TeamsWrite(db, c);
    } else if OnBegin(c) {
      BeginWrites(db, c);
    } else if OnAccounts(c) {
      AccountsWrite(db, c);
    } else if OnSetup(c) {
      SetupWrites(db, c);
    } else if c.DoSubmit? {
      SubmitFlagWrites(db, c.r, c.attempt);
    } else if c.DoUpdateEvent? {
      EventWrites(db, c.eventPatch, c.checked);
    }
  }

  /** No transaction but a registration adds an account, and none removes, renames or rejuvenates one. */
  lemma HandleAges(db: Db, c: Command)
    requires !c.DoRegisterFinish?
    ensures AccountsAge(db.accounts.users, Handle(db, c).0.accounts.users)
  {
    hide Handle, HandleTeams, HandleBegin, HandleAccounts, HandleSetup, RegisterFinish, LoginAttempt, PasswordAttempt,
         SubmitFlag, UpdateEvent, WriteSet;
    HandleIs(db, c);
    if OnAccounts(c) {
      AccountsWrite(db, c);
    } else {
      HandleWrites(db, c);
      AccountsUntouched(c);
    }
  }

  lemma AccountsUntouched(c: Command)
    requires !OnAccounts(c)
    ensures !WriteSet(c).accounts
  {
  }

  /** A step ends its request, unless its retry loop goes round again, and only forgets it. */
  lemma StepCloses(db: Db, c: Command)
    ensures Continues(c).Some? && Handle(db, c).1 != TryAgain ==> Continues(c).value !in Step(db, c).flights
    ensures Handle(db, c).1 == TryAgain ==> Step(db, c) == Handle(db, c).0
    ensures Within(NOTHING.(flights := true), Handle(db, c).0, Step(db, c))
    ensures forall r :: r in Step(db, c).flights ==>
              r in Handle(db, c).0.flights && Step(db, c).flights[r] == Handle(db, c).0.flights[r]
  {
    hide Handle;
  }
}
