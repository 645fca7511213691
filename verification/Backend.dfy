/** The backend as it runs: one server whose tables the handlers change row by row, guarded by early refusals and
    rolled back when a late check fails. Every handler keeps the server's invariant and ends in the state and with the
    answer of its transaction; serving a sequence of commands is a run of the contest. */
module Backend {
  import opened Basics
  import opened Schema
  import opened Services
  import opened Database
  import opened Soundness
  import E = Contest
  import T = TeamRoutes
  import P = SubmitRoute
  import U = AuthRoutes
  import A = AdminRoutes
  import G = PrerequisiteGraph
  import S = Scoring

  class Server {
    var now: Time
    var next: nat
    var config: Config
    var event: Event
    var edited: Time
    var challenges: map<Id, Challenge>
    var users: map<Id, User>
    var sessions: map<nat, Session>
    var codes: map<nat, Code>
    var admissions: seq<Admission>
    var teams: map<Id, Team>
    var members: map<Id, Membership>
    var audits: seq<Audit>
    var submissions: seq<Submission>
    var solves: seq<Solve>
    var scores: seq<ScoreEvent>
    var flights: map<nat, Flight>

    ghost function State(): Db
      reads this
    {
      Db(now, next, config, event, edited, challenges, Accounts(users, sessions), Registry(codes, admissions),
         Roster(teams, members, audits), Log(submissions, solves, scores), flights)
    }

    /** The invariant of the whole database: teams, submissions, prerequisites, the event and its board, registration
        codes, sessions and requests in flight. */
    ghost predicate Valid()
      reads this
    {
      Sound(State())
    }

    /** What bootstrap leaves behind. */
    constructor (
      now: Time, next: nat, config: Config, event: Event, edited: Time,
      challenges: map<Id, Challenge>, users: map<Id, User>)
      requires E.Bootstrapped(
                 Db(now, next, config, event, edited, challenges, Accounts(users, map[]), Registry(map[], []),
                    Roster(map[], map[], []), Log([], [], []), map[]))
      ensures Valid()
      ensures State() == Db(now, next, config, event, edited, challenges, Accounts(users, map[]), Registry(map[], []),
                            Roster(map[], map[], []), Log([], [], []), map[])
    {
      hide Sound, E.Bootstrapped;
      this.now, this.next, this.config, this.event, this.edited := now, next, config, event, edited;
      this.challenges, this.users, this.sessions := challenges, users, map[];
      codes, admissions := map[], [];
      teams, members, audits := map[], map[], [];
      submissions, solves, scores := [], [], [];
      flights := map[];
      new;
      BootstrappedSound(State());
    }

    /** A value that was never drawn before. */
    method Draw() returns (drawn: nat)
      modifies `next
      ensures drawn == old(next) && next == old(next) + 1
    {
      drawn := next;
      next := next + 1;
    }

    method Tick(dt: Time)
      requires Valid() && dt >= 0.0
      modifies `now
      ensures Valid() && State() == old(State()).(now := old(now) + dt)
    {
      hide Sound;
      OthersKeepSound(State(), E.Elapse(dt));
      now := now + dt;
    }

    // ---------- dependencies.py ----------

    /** current_user: who the token stands for at this moment. */
    method CurrentUser(token: nat) returns (user: Option<Id>)
      ensures user == if Accepts(State(), token) then Some(sessions[token].user) else None
    {
      if token !in sessions {
        return None;
      }
      var session := sessions[token];
      if session.user !in users || session.expires <= now || !users[session.user].active
         || session.version != users[session.user].version {
        return None;
      }
      return Some(session.user);
    }

    method Authenticate(token: nat, rate: bool) returns (answer: Response)
      requires Valid()
      modifies `next, `flights
      ensures Valid()
      ensures (State(), answer) == Database.Authenticate(old(State()), token, rate)
    {
      hide Sound;
      BeginKeepsSound(State(), E.DoAuthenticate(token, rate));
      if !rate {
        return Refused(RateLimited);
      }
      var user := CurrentUser(token);
      if user.None? {
        return Refused(InvalidSession);
      }
      var r := Draw();
      flights := flights[r := Authenticated(user.value, users[user.value].version, token)];
      answer := Started(r);
    }

    // ---------- routes_teams.py ----------

    method Enter(r: nat) returns (actor: Result<Id, Error>)
      ensures actor == T.Enter(State(), r)
    {
      if r !in flights || !flights[r].Authenticated? {
        return Failure(InvalidSession);
      }
      var snapshot := flights[r];
      if event.mode == Individual {
        return Failure(IndividualModeActive);
      }
      if !AllowsRegistration(event, now) {
        return Failure(TeamChangesClosed);
      }
      if snapshot.user !in users || !users[snapshot.user].active || users[snapshot.user].version != snapshot.version {
        return Failure(InvalidSession);
      }
      if Mutations(audits, snapshot.user) >= MAX_TEAM_MUTATIONS_PER_USER_EVENT {
        return Failure(MutationLimitReached);
      }
      return Success(snapshot.user);
    }

    method InsertTeam(user: Id, name: Name) returns (team: Id)
      modifies `next, `teams, `members, `audits
      ensures team == old(next) && next == old(next) + 2 && teams == old(teams)[team := Team(name, team + 1, user)]
      ensures members == old(members)[user := Membership(team, Owner)] && audits == old(audits) + [Audit(user, Created)]
    {
      team := Draw();
      var invite := Draw();
      teams := teams[team := Team(name, invite, user)];
      members := members[user := Membership(team, Owner)];
      audits := audits + [Audit(user, Created)];
    }

    method FoundTeam(user: Id, name: Name) returns (answer: Response)
      modifies `next, `teams, `members, `audits
      ensures State() == T.Founded(old(State()), user, name)
      ensures answer == TeamMade(old(next), old(next) + 1)
    {
      var team := InsertTeam(user, name);
      answer := TeamMade(team, team + 1);
    }

    method CreateTeam(r: nat, name: Name) returns (answer: Response)
      requires Valid()
      modifies `next, `teams, `members, `audits
      ensures Valid()
      ensures (State(), answer) == T.CreateTeam(old(State()), r, name)
    {
      hide Sound, T.Enter, T.Founded, NameTaken;
      TeamRoutesKeepSound(State(), E.DoCreateTeam(r, name));
      var actor := Enter(r);
      if actor.Failure? {
        return Refused(actor.error);
      }
      var user := actor.value;
      if user in members {
        return Refused(AlreadyOnTeam);
      }
      if NameTaken(teams, name) {
        return Refused(TeamNameExists);
      }
      answer := FoundTeam(user, name);
    }

    method JoinTeam(r: nat, invite: nat) returns (answer: Response)
      requires Valid()
      modifies `members, `audits
      ensures Valid()
      ensures (State(), answer) == T.JoinTeam(old(State()), r, invite)
    {
      hide Sound, T.Enter, MembersOf, InvitesUnique, TeamWithInvite;
      TeamRoutesKeepSound(State(), E.DoJoinTeam(r, invite));
      SoundKeys(State());
      var actor := Enter(r);
      if actor.Failure? {
        return Refused(actor.error);
      }
      var user := actor.value;
      if user in members {
        return Refused(AlreadyOnTeam);
      }
      if team: Id :| team in teams && teams[team].invite == invite {
        OnlyTeamWithInvite(teams, invite, team);
        if |MembersOf(members, team)| >= MAX_MEMBERS_PER_TEAM {
          return Refused(TeamCapacityReached);
        }
        members := members[user := Membership(team, Member)];
        audits := audits + [Audit(user, Joined)];
        return Done;
      }
      NoTeamWithInvite(teams, invite);
      return Refused(InvalidInvite);
    }

    method RotateInvite(r: nat) returns (answer: Response)
      requires Valid()
      modifies `next, `teams, `audits
      ensures Valid()
      ensures (State(), answer) == T.RotateInvite(old(State()), r)
    {
      hide Sound, T.Enter;
      TeamRoutesKeepSound(State(), E.DoRotateInvite(r));
      var actor := Enter(r);
      if actor.Failure? {
        return Refused(actor.error);
      }
      var user := actor.value;
      if user !in members || members[user].team !in teams {
        return Refused(TeamRequired);
      }
      if members[user].role != Owner {
        return Refused(TeamOwnerRequired);
      }
      var team := members[user].team;
      var invite := Draw();
      teams := teams[team := teams[team].(invite := invite)];
      audits := audits + [Audit(user, InviteRotated)];
      answer := Invite(invite);
    }

    method LockOwnerAndTarget(r: nat, target: Id) returns (pair: Result<T.Pair, Error>)
      ensures pair == T.OwnerAndTarget(State(), r, target)
    {
      var actor := Enter(r);
      if actor.Failure? {
        return Failure(actor.error);
      }
      var user := actor.value;
      if user !in members || members[user].team !in teams {
        return Failure(TeamRequired);
      }
      var team := members[user].team;
      if members[user].role != Owner {
        return Failure(TeamOwnerRequired);
      }
      if user == target {
        return Failure(CannotTargetSelf);
      }
      if target !in users || target !in members || members[target].team != team || members[target].role != Member {
        return Failure(TeamMemberNotFound);
      }
      return Success(T.Pair(user, team));
    }

    method TransferOwner(r: nat, target: Id) returns (answer: Response)
      requires Valid()
      modifies `members, `audits
      ensures Valid()
      ensures (State(), answer) == T.TransferOwner(old(State()), r, target)
    {
      hide Sound, T.OwnerAndTarget;
      TeamRoutesKeepSound(State(), E.DoTransferOwner(r, target));
      var pair := LockOwnerAndTarget(r, target);
      if pair.Failure? {
        return Refused(pair.error);
      }
      if !users[target].active || users[target].role != Participant {
        return Refused(OwnerTargetIneligible);
      }
      members := members[pair.value.actor := members[pair.value.actor].(role := Member)];
      members := members[target := members[target].(role := Owner)];
      audits := audits + [Audit(pair.value.actor, OwnerTransferred)];
      answer := Done;
    }

    /** The membership goes, and the invite it came by. */
    method Expel(actor: Id, team: Id, target: Id) returns (invite: nat)
      requires team in teams
      modifies `next, `teams, `members, `audits
      ensures invite == old(next) && next == old(next) + 1
      ensures teams == old(teams)[team := old(teams)[team].(invite := invite)] && members == old(members) - {target}
      ensures audits == old(audits) + [Audit(actor, MemberRemoved)]
    {
      invite := Draw();
      teams := teams[team := teams[team].(invite := invite)];
      members := members - {target};
      audits := audits + [Audit(actor, MemberRemoved)];
    }

    method RemoveMember(r: nat, target: Id) returns (answer: Response)
      requires Valid()
      modifies `next, `teams, `members, `audits
      ensures Valid()
      ensures (State(), answer) == T.RemoveMember(old(State()), r, target)
    {
      hide Sound, T.OwnerAndTarget, MemberSubmitted;
      TeamRoutesKeepSound(State(), E.DoRemoveMember(r, target));
      var pair := LockOwnerAndTarget(r, target);
      if pair.Failure? {
        return Refused(pair.error);
      }
      var team := pair.value.team;
      if MemberSubmitted(submissions, target, team) {
        return Refused(MemberHasActivity);
      }
      var invite := Expel(pair.value.actor, team, target);
      answer := Invite(invite);
    }

    /** The row and, by ON DELETE CASCADE, what refers to it. */
    method DeleteTeam(team: Id)
      modifies `teams, `submissions, `solves, `scores
      ensures teams == old(teams) - {team}
      ensures Log(submissions, solves, scores) == T.DropTeam(old(Log(submissions, solves, scores)), team)
    {
      teams := teams - {team};
      submissions := T.DropTeamSubmissions(submissions, team);
      solves := T.DropTeamSolves(solves, team);
      scores := T.DropTeamScores(scores, team);
    }

    method CheckLeave(user: Id, m: Membership) returns (refusal: Option<Error>)
      ensures refusal == T.LeaveRefusal(State(), user, m)
    {
      if m.role == Owner && |MembersOf(members, m.team)| > 1 {
        return Some(OwnerCannotLeave);
      }
      if MemberSubmitted(submissions, user, m.team) {
        return Some(MemberHasActivity);
      }
      if m.role == Owner && TeamSubmitted(submissions, m.team) {
        return Some(TeamHasActivity);
      }
      return None;
    }

    /** The rows of leave_team. */
    method DropMembership(user: Id, m: Membership)
      modifies `teams, `members, `audits, `submissions, `solves, `scores
      ensures members == old(members) - {user} && audits == old(audits) + [Audit(user, Left)]
      ensures teams == if m.role == Owner then old(teams) - {m.team} else old(teams)
      ensures var log := old(Log(submissions, solves, scores));
              Log(submissions, solves, scores) == if m.role == Owner then T.DropTeam(log, m.team) else log
    {
      hide T.DropTeam;
      members := members - {user};
      if m.role == Owner {
        DeleteTeam(m.team);
      }
      audits := audits + [Audit(user, Left)];
    }

    method Depart(user: Id, m: Membership)
      modifies `teams, `members, `audits, `submissions, `solves, `scores
      ensures State() == T.Departed(old(State()), user, m)
    {
      hide T.DropTeam;
      DropMembership(user, m);
    }

    method LeaveTeam(r: nat) returns (answer: Response)
      requires Valid()
      modifies `teams, `members, `audits, `submissions, `solves, `scores
      ensures Valid()
      ensures (State(), answer) == T.LeaveTeam(old(State()), r)
    {
      hide Sound, T.Enter, T.LeaveRefusal, T.Departed;
      TeamRoutesKeepSound(State(), E.DoLeaveTeam(r));
      var actor := Enter(r);
      if actor.Failure? {
        return Refused(actor.error);
      }
      var user := actor.value;
      if user !in members || members[user].team !in teams {
        return Refused(TeamRequired);
      }
      var m := members[user];
      var refusal := CheckLeave(user, m);
      if refusal.Some? {
        return Refused(refusal.value);
      }
      Depart(user, m);
      answer := Done;
    }

    // ---------- routes_participant.py ----------

    /** The checks between the two lookups of the idempotency key and the flag comparison. */
    method Admit(r: nat, team: Id, a: P.Attempt) returns (challenge: Result<Challenge, Error>)
      requires r in flights && flights[r].Authenticated?
      ensures challenge == P.Admit(State(), r, team, a)
    {
      hide P.IsAccessible;
      if !a.rate {
        return Failure(RateLimited);
      }
      var snapshot := flights[r];
      if snapshot.user !in users || !users[snapshot.user].active {
        return Failure(InvalidSession);
      }
      if !(snapshot.token in sessions && sessions[snapshot.token].user in users
        && sessions[snapshot.token].expires > now
           && users[sessions[snapshot.token].user].active
           && sessions[snapshot.token].version == users[sessions[snapshot.token].user].version) {
        return Failure(InvalidSession);
      }
      if sessions[snapshot.token].user != snapshot.user {
        return Failure(InvalidSession);
      }
      if team !in teams {
        return Failure(TeamRequired);
      }
      if a.challenge !in challenges || !P.IsAccessible(challenges[a.challenge], SolvedBy(solves, team), a.accessAt) {
        return Failure(ChallengeNotFound);
      }
      return Success(challenges[a.challenge]);
    }

    /** Counts the team's rows before anything is stored. */
    method WithinCaps(team: Id, a: P.Attempt, challenge: Challenge) returns (refusal: Option<Error>)
      ensures refusal ==
        if Attempts(submissions, team, a.challenge) >= P.AttemptLimit(challenge) then
          Some(if challenge.maxAttempts != 0 then AttemptLimitReached else StorageLimitReached)
        else if EventAttempts(submissions, team) >= MAX_SUBMISSIONS_PER_TEAM_EVENT then Some(StorageLimitReached)
        else None
    {
      var attempts, limit := 0, MAX_CHALLENGE_ATTEMPTS;
      if challenge.maxAttempts != 0 && challenge.maxAttempts < limit {
        limit := challenge.maxAttempts;
      }
      attempts := Attempts(submissions, team, a.challenge);
      if attempts >= limit {
        return if challenge.maxAttempts != 0 then Some(AttemptLimitReached) else Some(StorageLimitReached);
      }
      attempts := EventAttempts(submissions, team);
      if attempts >= MAX_SUBMISSIONS_PER_TEAM_EVENT {
        return Some(StorageLimitReached);
      }
      return None;
    }

    /** The solve and its score: the score starts at 0 and is set once the solve can be counted. */
    method StoreSolve(submission: Id, user: Id, team: Id, challenge: Challenge, a: P.Attempt) returns (points: int)
      modifies `next, `solves, `scores
      ensures next == old(next) + 2
              && points == S.ChallengePoints(challenge.scoring, SolveCount(old(solves), a.challenge) + 1)
      ensures solves == old(solves) + [Solve(old(next), team, a.challenge, user, submission, a.solvedAt)]
      ensures scores ==
        old(scores)
          + [ScoreEvent(old(next) + 1, team, Some(a.challenge), SolveScore(old(next)), points, true, a.scoredAt)]
    {
      hide SolveCount, S.ChallengePoints;
      var solve := Draw();
      solves := solves + [Solve(solve, team, a.challenge, user, submission, a.solvedAt)];
      var score := Draw();
      scores := scores + [ScoreEvent(score, team, Some(a.challenge), SolveScore(solve), 0, true, a.scoredAt)];
      OneMoreSolve(old(solves), solves[|solves| - 1], a.challenge);
      points := S.ChallengePoints(challenge.scoring, SolveCount(solves, a.challenge));
      scores := scores[|scores| - 1 := scores[|scores| - 1].(points := points)];
      assert scores ==
        old(scores) + [ScoreEvent(score, team, Some(a.challenge), SolveScore(solve), points, true, a.scoredAt)];
    }

    /** The rows of one attempt; a correct one learns its award last. */
    method InsertRows(user: Id, team: Id, challenge: Challenge, a: P.Attempt, correct: bool) returns (points: int)
      modifies `next, `submissions, `solves, `scores
      ensures next == old(next) + (if correct then 3 else 1)
      ensures points == if correct then S.ChallengePoints(challenge.scoring, SolveCount(old(solves), a.challenge) + 1)
                        else 0
      ensures submissions
              == old(submissions)
                 + [Submission(old(next), team, a.challenge, user, correct, points, a.key, a.storedAt)]
      ensures solves == if !correct then old(solves)
                        else old(solves)
                             + [Solve(old(next) + 1, team, a.challenge, user, old(next), a.solvedAt)]
      ensures scores == if !correct then old(scores)
                        else old(scores)
                             + [ScoreEvent(old(next) + 2, team, Some(a.challenge), SolveScore(old(next) + 1), points,
                                           true, a.scoredAt)]
    {
      hide SolveCount, S.ChallengePoints;
      var id := Draw();
      submissions := submissions + [Submission(id, team, a.challenge, user, correct, 0, a.key, a.storedAt)];
      points := 0;
      if correct {
        points := StoreSolve(id, user, team, challenge, a);
        submissions := submissions[|submissions| - 1 := submissions[|submissions| - 1].(awarded := points)];
        assert submissions
               == old(submissions) + [Submission(id, team, a.challenge, user, true, points, a.key, a.storedAt)];
      }
    }

    method Store(user: Id, team: Id, challenge: Challenge, a: P.Attempt) returns (answer: Response)
      modifies `next, `submissions, `solves, `scores
      ensures (State(), answer) == P.Record(old(State()), user, team, challenge, a)
    {
      hide SolveCount, S.ChallengePoints, P.Matches;
      var correct := P.Matches(challenge.flag, a.flag, a.firstMatch);
      if correct {
        correct := P.Matches(challenge.flag, a.flag, a.secondMatch);
      }
      var points := InsertRows(user, team, challenge, a, correct);
      answer := Verdict(correct, false, points, if correct then Some(a.solvedAt) else None);
    }

    /** The rows are stored first and rolled back when the window has closed in the meantime. */
    method StoreUnlessClosed(user: Id, team: Id, challenge: Challenge, a: P.Attempt) returns (answer: Response)
      modifies `next, `submissions, `solves, `scores
      ensures (State(), answer) ==
        if AllowsSubmission(event, now) then P.Record(old(State()), user, team, challenge, a)
        else (old(State()), Refused(SubmissionsClosed))
    {
      hide P.Record, AllowsSubmission;
      var before := (next, submissions, solves, scores);
      answer := Store(user, team, challenge, a);
      if !AllowsSubmission(event, now) {
        next, submissions, solves, scores := before.0, before.1, before.2, before.3;
        answer := Refused(SubmissionsClosed);
      }
    }

    method SubmitFlag(r: nat, a: P.Attempt) returns (answer: Response)
      requires Valid() && a.gateAt <= a.accessAt <= a.storedAt <= a.solvedAt <= a.scoredAt <= now
      modifies `next, `submissions, `solves, `scores
      ensures Valid()
      ensures (State(), answer) == P.SubmitFlag(old(State()), r, a)
    {
      hide Sound, P.Admit, P.Record, P.StoredUnder, P.SubmissionResult, IsSolved, Attempts, EventAttempts,
           AllowsSubmission;
      OthersKeepSound(State(), E.DoSubmit(r, a));
      if r !in flights || !flights[r].Authenticated? {
        return Refused(InvalidSession);
      }
      var user := flights[r].user;
      if !AllowsSubmission(event, a.gateAt) {
        return Refused(SubmissionsClosed);
      }
      if user !in members {
        return Refused(TeamRequired);
      }
      var team := members[user].team;
      if |a.flag| > config.maxFlagLength {
        return Refused(FlagTooLong);
      }
      var stored := P.StoredUnder(submissions, team, a.challenge, a.key);
      if stored.Some? {
        return P.SubmissionResult(solves, stored.value);
      }
      var challenge := Admit(r, team, a);
      if challenge.Failure? {
        return Refused(challenge.error);
      }
      if IsSolved(solves, team, a.challenge) {
        return Verdict(true, true, 0, P.SolvedAt(solves, team, a.challenge));
      }
      var refusal := WithinCaps(team, a, challenge.value);
      if refusal.Some? {
        return Refused(refusal.value);
      }
      answer := StoreUnlessClosed(user, team, challenge.value, a);
    }

    // ---------- routes_auth.py ----------

    /** _new_session */
    method NewSession(user: Id, version: nat, token: nat)
      modifies `sessions
      ensures sessions == AddSession(old(sessions), now, config.sessionTtl, user, version, token)
    {
      hide Excess;
      sessions := map t | t in sessions && !Excess(sessions, user, now, t) :: sessions[t];
      sessions := sessions[token := Session(user, version, now, now + config.sessionTtl)];
    }

    /** _registration_code_or_denied */
    method RegistrationCodeOrDenied(access: Option<nat>) returns (code: Result<Option<nat>, Error>)
      ensures code == U.CodeOrDenied(State(), access)
    {
      if event.access != CodeOnly {
        return Success(None);
      }
      if access.None? || access.value !in codes {
        return Failure(RegistrationAccessDenied);
      }
      var row := codes[access.value];
      if !row.active || row.revokedAt.Some? || (row.expires.Some? && row.expires.value <= now)
         || (row.maxUses.Some? && row.uses >= row.maxUses.value) {
        return Failure(RegistrationAccessDenied);
      }
      return Success(access);
    }

    /** The checks that register makes before the password is hashed, and once more under the locks. */
    method MayRegister(email: Name, username: Name, access: Option<nat>) returns (code: Result<Option<nat>, Error>)
      ensures code == U.MayRegister(State(), email, username, access)
    {
      hide U.CodeOrDenied, AllowsRegistration, AccountTaken, Participants;
      if !AllowsRegistration(event, now) {
        return Failure(RegistrationClosed);
      }
      code := RegistrationCodeOrDenied(access);
      if code.Failure? {
        return;
      }
      if AccountTaken(users, email, username) {
        return Failure(AccountExists);
      }
      if |Participants(users)| >= MAX_PARTICIPANT_USERS {
        return Failure(ParticipantCapacityReached);
      }
    }

    /** The personal team of an individual event; false when its name is taken. */
    method FoundSoloTeam(user: Id, team: Id, invite: nat, name: Name) returns (ok: bool)
      modifies `teams, `members, `audits
      ensures var solo := U.SoloRoster(old(Roster(teams, members, audits)), event.mode, name, user, team, invite);
              && ok == solo.Some?
              && Roster(teams, members, audits) == (if ok then solo.value else old(Roster(teams, members, audits)))
    {
      hide NameTaken;
      if event.mode == Individual {
        if NameTaken(teams, name) {
          return false;
        }
        teams := teams[team := Team(name, invite, user)];
        members := members[user := Membership(team, Owner)];
        audits := audits + [Audit(user, SoloCreated)];
      }
      return true;
    }

    /** registration_code.use_count += 1 */
    method CountUse(code: Option<nat>)
      modifies `codes
      ensures codes == U.UseCode(old(codes), code)
    {
      if code.Some? && code.value in codes {
        var row := codes[code.value];
        codes := codes[code.value := row.(uses := row.uses + 1)];
      }
    }

    /** The account itself, its session and the use of its code. */
    method InsertAccount(f: Flight, code: Option<nat>)
      requires f.Registering?
      modifies `next, `users, `sessions, `codes, `admissions
      ensures next == old(next) + 5
      ensures Accounts(users, sessions) ==
        Accounts(old(users)[old(next) := U.Account(f, old(next) + 4)],
                 AddSession(old(sessions), now, config.sessionTtl, old(next), 0, old(next) + 3))
      ensures Registry(codes, admissions) ==
        Registry(U.UseCode(old(codes), code), old(admissions) + [Admission(old(next), code)])
    {
      hide U.UseCode, AddSession;
      var user, token := next, next + 3;
      var hash := PasswordHash(next + 4, f.password);
      users := users[user := User(f.email, f.username, hash, Participant, true, false, 0)];
      NewSession(user, 0, token);
      admissions := admissions + [Admission(user, code)];
      CountUse(code);
      next := next + 5;
    }

    /** All the rows of a new account; a conflict over the name of its team leaves none of them. */
    method InsertAll(f: Flight, code: Option<nat>, name: Name) returns (ok: bool)
      requires f.Registering?
      modifies `next, `users, `sessions, `codes, `admissions, `teams, `members, `audits
      ensures var user := old(next);
              var solo := U.SoloRoster(old(Roster(teams, members, audits)), event.mode, name, user, user + 1, user + 2);
              && ok == solo.Some?
              && (ok ==>
                    && next == user + 5 && Roster(teams, members, audits) == solo.value
                    && Accounts(users, sessions)
                       == Accounts(old(users)[user := U.Account(f, user + 4)],
                                   AddSession(old(sessions), now, config.sessionTtl, user, 0, user + 3))
                    && Registry(codes, admissions)
                       == Registry(U.UseCode(old(codes), code), old(admissions) + [Admission(user, code)]))
              && (!ok ==>
                    && next == user && Roster(teams, members, audits) == old(Roster(teams, members, audits))
                    && Accounts(users, sessions) == old(Accounts(users, sessions))
                    && Registry(codes, admissions) == old(Registry(codes, admissions)))
    {
      hide U.UseCode, AddSession, U.SoloRoster;
      ok := FoundSoloTeam(next, next + 1, next + 2, name);
      if ok {
        InsertAccount(f, code);
      }
    }

    method OpenAccount(f: Flight, code: Option<nat>, suffix: string) returns (answer: Response)
      requires f.Registering?
      modifies `next, `users, `sessions, `codes, `admissions, `teams, `members, `audits
      ensures (State(), answer) == U.OpenAccount(old(State()), f, code, suffix)
    {
      hide U.UseCode, AddSession, U.SoloRoster, U.SoloName;
      var token := next + 3;
      var ok := InsertAll(f, code, U.SoloName(f.username, suffix));
      answer := if ok then SignedIn(token) else Refused(AccountExists);
    }

    /** The second half of register: everything is checked again. */
    method RegisterFinish(r: nat, suffix: string) returns (answer: Response)
      requires Valid()
      modifies `next, `users, `sessions, `codes, `admissions, `teams, `members, `audits
      ensures Valid()
      ensures (State(), answer) == U.RegisterFinish(old(State()), r, suffix)
    {
      hide Sound, U.MayRegister, U.OpenAccount;
      AccountsKeepSound(State(), E.DoRegisterFinish(r, suffix));
      if r !in flights || !flights[r].Registering? {
        return Refused(InvalidSession);
      }
      var f := flights[r];
      var code := MayRegister(f.email, f.username, f.access);
      if code.Failure? {
        return Refused(code.error);
      }
      answer := OpenAccount(f, code.value, suffix);
    }

    /** The verified account with its salt, fresh if that is due, and its new session. */
    method StoreSignIn(id: Id, user: User) returns (token: nat)
      modifies `next, `users, `sessions
      ensures token == old(next) && next == old(next) + 2 && users == old(users)[id := user]
      ensures sessions == AddSession(old(sessions), now, config.sessionTtl, id, user.version, token)
    {
      hide AddSession;
      token := Draw();
      var salt := Draw();
      users := users[id := user];
      NewSession(id, user.version, token);
    }

    /** What follows a verified password: a fresh salt if it is due, and a session. */
    method SignIn(id: Id, password: string, rehash: bool) returns (answer: Response)
      requires id in users
      modifies `next, `users, `sessions
      ensures (State(), answer) == U.SignIn(old(State()), id, password, rehash)
    {
      hide AddSession;
      var hash := if rehash then PasswordHash(next + 1, password) else users[id].hash;
      var token := StoreSignIn(id, users[id].(hash := hash));
      answer := SignedIn(token);
    }

    /** The new hash, the next generation, and the end of every session but a new one. */
    method ReplacePassword(id: Id, replacement: string) returns (answer: Response)
      requires id in users
      modifies `next, `users, `sessions
      ensures (State(), answer) == U.ReplacePassword(old(State()), id, replacement)
    {
      hide AddSession, WithoutSessionsOf;
      var token := Draw();
      var salt := Draw();
      var user := users[id].(hash := PasswordHash(salt, replacement), mustChange := false);
      user := user.(version := user.version + 1);
      users, sessions := users[id := user], WithoutSessionsOf(sessions, id);
      NewSession(id, user.version, token);
      answer := SignedIn(token);
    }

    /** The first half of register: the same checks, before the password is hashed. */
    method RegisterBegin(email: Name, username: Name, password: string, access: Option<nat>, rate: bool)
      returns (answer: Response)
      requires Valid()
      modifies `next, `flights
      ensures Valid()
      ensures (State(), answer) == U.RegisterBegin(old(State()), email, username, password, access, rate)
    {
      hide Sound, U.MayRegister;
      BeginKeepsSound(State(), E.DoRegisterBegin(email, username, password, access, rate));
      if !rate {
        return Refused(RateLimited);
      }
      var code := MayRegister(email, username, access);
      if code.Failure? {
        return Refused(code.error);
      }
      var r := Draw();
      flights := flights[r := Registering(email, username, password, access)];
      answer := Started(r);
    }

    method Logout(token: nat) returns (answer: Response)
      requires Valid()
      modifies `sessions
      ensures Valid()
      ensures (State(), answer) == U.Logout(old(State()), token)
    {
      hide Sound;
      AccountsKeepSound(State(), E.DoLogout(token));
      if token in sessions {
        sessions := sessions - {token};
      } else {
        assert sessions - {token} == sessions;
      }
      answer := Done;
    }

    /** The lookup by email, over its unique index. */
    method FindUser(email: Name) returns (user: Option<Id>)
      requires EmailsUnique(users)
      ensures user == UserWithEmail(users, email)
      ensures user.Some? ==> user.value in users
    {
      if u: Id :| u in users && users[u].email.folded == email.folded {
        OnlyUserWithEmail(users, email, u);
        return Some(u);
      }
      NoUserWithEmail(users, email);
      return None;
    }

    /** login before its loop: the password is verified against the hash as it was read. */
    method LoginBegin(email: Name, password: string, rate: bool) returns (answer: Response)
      requires Valid()
      modifies `next, `flights
      ensures Valid()
      ensures (State(), answer) == U.LoginBegin(old(State()), email, password, rate)
    {
      hide Sound, UserWithEmail, EmailsUnique;
      BeginKeepsSound(State(), E.DoLoginBegin(email, password, rate));
      SoundKeys(State());
      if !rate {
        return Refused(RateLimited);
      }
      var candidate := FindUser(email);
      if candidate.None? || users[candidate.value].hash.password != password || !users[candidate.value].active {
        return Refused(InvalidCredentials);
      }
      var r := Draw();
      flights :=
        flights[r := LoggingIn(candidate.value, password, users[candidate.value].hash, MAX_CREDENTIAL_ATTEMPTS)];
      answer := Started(r);
    }

    /** change_password before its loop. */
    method PasswordBegin(token: nat, current: string, replacement: string, rate: bool, userRate: bool)
      returns (answer: Response)
      requires Valid()
      modifies `next, `flights
      ensures Valid()
      ensures (State(), answer) == U.PasswordBegin(old(State()), token, current, replacement, rate, userRate)
    {
      hide Sound;
      BeginKeepsSound(State(), E.DoPasswordBegin(token, current, replacement, rate, userRate));
      if !rate {
        return Refused(RateLimited);
      }
      var user := CurrentUser(token);
      if user.None? {
        return Refused(InvalidSession);
      }
      if !userRate {
        return Refused(RateLimited);
      }
      var hash := users[user.value].hash;
      if hash.password != current {
        return Refused(InvalidCurrentPassword);
      }
      var r := Draw();
      flights := flights[r := ChangingPassword(user.value, token, current, replacement, hash, MAX_CREDENTIAL_ATTEMPTS)];
      answer := Started(r);
    }

    /** The recovery command of cli.py. */
    method SetPassword(email: Name, password: string) returns (answer: Response)
      requires Valid()
      modifies `next, `users, `sessions
      ensures Valid()
      ensures (State(), answer) == U.SetPassword(old(State()), email, password)
    {
      hide Sound, UserWithEmail, EmailsUnique, WithoutSessionsOf;
      AccountsKeepSound(State(), E.DoSetPassword(email, password));
      SoundKeys(State());
      var found := FindUser(email);
      if found.None? {
        return Refused(UserNotFound);
      }
      var salt := Draw();
      var user := users[found.value].(hash := PasswordHash(salt, password), mustChange := true);
      user := user.(version := user.version + 1);
      users, sessions := users[found.value := user], WithoutSessionsOf(sessions, found.value);
      answer := Done;
    }

    /** One round of login's loop. */
    method LoginAttempt(r: nat, rehash: bool) returns (answer: Response)
      requires Valid()
      modifies `next, `users, `sessions, `flights
      ensures Valid()
      ensures (State(), answer) == U.LoginAttempt(old(State()), r, rehash)
    {
      hide Sound, U.SignIn;
      AccountsKeepSound(State(), E.DoLoginAttempt(r, rehash));
      if r !in flights || !flights[r].LoggingIn? {
        return Refused(InvalidSession);
      }
      var f := flights[r];
      if f.user !in users || !users[f.user].active {
        return Refused(InvalidCredentials);
      }
      var user := users[f.user];
      if user.hash != f.verified {
        if user.hash.password != f.password {
          return Refused(InvalidCredentials);
        }
        if f.left <= 1 {
          return Refused(CredentialChanged);
        }
        flights := flights[r := LoggingIn(f.user, f.password, user.hash, f.left - 1)];
        return TryAgain;
      }
      answer := SignIn(f.user, f.password, rehash);
    }

    /** One round of change_password's loop. */
    method PasswordAttempt(r: nat) returns (answer: Response)
      requires Valid()
      modifies `next, `users, `sessions, `flights
      ensures Valid()
      ensures (State(), answer) == U.PasswordAttempt(old(State()), r)
    {
      hide Sound, U.ReplacePassword;
      AccountsKeepSound(State(), E.DoPasswordAttempt(r));
      if r !in flights || !flights[r].ChangingPassword? {
        return Refused(InvalidSession);
      }
      var f := flights[r];
      if f.user !in users || !users[f.user].active {
        return Refused(InvalidSession);
      }
      if f.token !in sessions || sessions[f.token].user != f.user || sessions[f.token].expires <= now
         || sessions[f.token].version != users[f.user].version {
        return Refused(InvalidSession);
      }
      var user := users[f.user];
      if user.hash != f.verified {
        if user.hash.password != f.password {
          return Refused(InvalidCurrentPassword);
        }
        if f.left <= 1 {
          return Refused(CredentialChanged);
        }
        flights := flights[r := ChangingPassword(f.user, f.token, f.password, f.replacement, user.hash, f.left - 1)];
        return TryAgain;
      }
      answer := ReplacePassword(f.user, f.replacement);
    }

    // ---------- routes_admin.py ----------

    method UpdateUserStatus(id: Id, active: bool) returns (answer: Response)
      requires Valid()
      modifies `users, `sessions
      ensures Valid()
      ensures (State(), answer) == A.UpdateUserStatus(old(State()), id, active)
    {
      hide Sound, WithoutSessionsOf;
      AccountsKeepSound(State(), E.DoUpdateUserStatus(id, active));
      if id !in users || users[id].role != Participant {
        return Refused(ParticipantRequired);
      }
      if users[id].active == active {
        if !active {
          sessions := WithoutSessionsOf(sessions, id);
        }
        return Done;
      }
      var user := users[id].(active := active);
      if !active {
        user := user.(version := user.version + 1);
        sessions := WithoutSessionsOf(sessions, id);
      }
      users := users[id := user];
      answer := Done;
    }

    method RevokeCode(id: nat) returns (answer: Response)
      requires Valid()
      modifies `codes
      ensures Valid()
      ensures (State(), answer) == A.RevokeCode(old(State()), id)
    {
      hide Sound;
      SetupKeepsSound(State(), E.DoRevokeCode(id));
      if event.state == Archived {
        return Refused(EventArchived);
      }
      if id !in codes {
        return Refused(CodeNotFound);
      }
      var code := codes[id];
      if code.active || code.revokedAt.None? {
        code := code.(active := false);
        if code.revokedAt.None? {
          code := code.(revokedAt := Some(now));
        }
        codes := codes[id := code];
      }
      answer := Done;
    }

    /** What update_event checks before it sets a field. */
    method CheckEvent(p: A.EventPatch, checked: Time) returns (refusal: Option<Error>)
      ensures refusal == A.EarlyRefusal(State(), p, checked)
    {
      hide Participants, FreezeLocked, TransitionAllowed;
      if event.state == Archived {
        return Some(EventArchived);
      }
      if p.changesSlug {
        return Some(EventSlugLocked);
      }
      if p.freezeAt.Some? && FreezeLocked(event, checked) && p.freezeAt.value != event.freezeAt {
        return Some(ScoreboardFreezeLocked);
      }
      if p.mode.Some? && p.mode.value != event.mode && (Participants(users) != {} || members != map[]) {
        return Some(TeamModeLocked);
      }
      if p.state.Some? && !TransitionAllowed(event.state, p.state.value) {
        return Some(InvalidStateTransition);
      }
      return None;
    }

    /** setattr for every field the request carries, with the instant that entering `frozen` supplies. */
    method SetEventFields(p: A.EventPatch, checked: Time)
      modifies `event
      ensures event == A.Patched(old(event), p, checked)
    {
      var freezeAt := if p.freezeAt.Some? then p.freezeAt.value else event.freezeAt;
      if p.state.Some? && p.state.value == Frozen && (freezeAt.None? || freezeAt.value > checked) {
        freezeAt := Some(checked);
      }
      if p.state.Some? { event := event.(state := p.state.value); }
      if p.registrationAt.Some? { event := event.(registrationAt := p.registrationAt.value); }
      if p.startAt.Some? { event := event.(startAt := p.startAt.value); }
      event := event.(freezeAt := freezeAt);
      if p.endAt.Some? { event := event.(endAt := p.endAt.value); }
      if p.mode.Some? { event := event.(mode := p.mode.value); }
      if p.access.Some? { event := event.(access := p.access.value); }
    }

    /** The four comparisons of the row's instants. */
    method TimesOrdered() returns (ok: bool)
      ensures ok == A.TimesOk(event)
    {
      if event.startAt.Some? && event.endAt.Some? && event.startAt.value >= event.endAt.value {
        return false;
      }
      if event.registrationAt.Some? && event.startAt.Some? && event.registrationAt.value > event.startAt.value {
        return false;
      }
      if event.freezeAt.Some? && event.startAt.Some? && event.freezeAt.value < event.startAt.value {
        return false;
      }
      if event.freezeAt.Some? && event.endAt.Some? && event.freezeAt.value > event.endAt.value {
        return false;
      }
      return true;
    }

    /** A row that ends up with disordered times is rolled back. */
    method UpdateEvent(p: A.EventPatch, checked: Time) returns (answer: Response)
      requires Valid() && edited <= checked <= now
      modifies `event, `edited
      ensures Valid()
      ensures (State(), answer) == A.UpdateEvent(old(State()), p, checked)
    {
      hide Sound, A.EarlyRefusal, A.Patched, A.TimesOk;
      OthersKeepSound(State(), E.DoUpdateEvent(p, checked));
      var refusal := CheckEvent(p, checked);
      if refusal.Some? {
        return Refused(refusal.value);
      }
      var before := event;
      SetEventFields(p, checked);
      var ordered := TimesOrdered();
      if !ordered {
        event := before;
        return Refused(InvalidEventTimes);
      }
      edited := now;
      answer := Done;
    }

    method LoadPrerequisites(ids: seq<Id>, target: Option<Id>) returns (refusal: Option<Error>)
      requires G.Closed(A.Graph(challenges))
      ensures refusal == A.PrerequisiteRefusal(challenges, ids, target)
    {
      hide G.LoadPrerequisites, G.Closed;
      var loaded := G.LoadPrerequisitesFor(A.Graph(challenges), ids, target);
      return if loaded.Failure? then Some(A.LoadFailure(loaded.error)) else None;
    }

    method CreateChallenge(c: Challenge) returns (answer: Response)
      requires Valid()
      modifies `next, `challenges
      ensures Valid()
      ensures (State(), answer) == A.CreateChallenge(old(State()), c)
    {
      hide Sound, G.Closed, A.PrerequisiteRefusal, A.SlugTaken;
      SetupKeepsSound(State(), E.DoCreateChallenge(c));
      SoundKeys(State());
      if event.state == Archived {
        return Refused(EventArchived);
      }
      if |A.FlagText(c.flag)| > config.maxFlagLength {
        return Refused(FlagTooLong);
      }
      var refusal := LoadPrerequisites(c.prerequisites, None);
      if refusal.Some? {
        return Refused(refusal.value);
      }
      if A.SlugTaken(challenges, c.slug, None) {
        return Refused(ChallengeConflict);
      }
      var id := Draw();
      challenges := challenges[id := c];
      answer := Done;
    }

    method SetScoringFields(current: S.Scoring, p: A.ChallengePatch) returns (scoring: S.Scoring)
      ensures scoring == A.NewScoring(current, p)
    {
      scoring := current;
      if p.kind.Some? { scoring := scoring.(kind := p.kind.value); }
      if p.initial.Some? { scoring := scoring.(initial := p.initial.value); }
      if p.minimum.Some? { scoring := scoring.(minimum := p.minimum.value); }
      if p.decay.Some? { scoring := scoring.(decay := p.decay.value); }
    }

    method UpdateChallenge(id: Id, p: A.ChallengePatch, checked: Time) returns (answer: Response)
      requires Valid() && edited <= checked <= now
      modifies `challenges
      ensures Valid()
      ensures (State(), answer) == A.UpdateChallenge(old(State()), id, p, checked)
    {
      hide Sound, G.Closed, A.PrerequisiteRefusal, A.SlugTaken, FreezeLocked, A.NewScoring;
      SetupKeepsSound(State(), E.DoUpdateChallenge(id, p, checked));
      SoundKeys(State());
      if event.state == Archived {
        return Refused(EventArchived);
      }
      if id !in challenges {
        return Refused(ChallengeNotFound);
      }
      var c := challenges[id];
      var scoring := SetScoringFields(c.scoring, p);
      if scoring != c.scoring && FreezeLocked(event, checked) {
        return Refused(FrozenScoringLocked);
      }
      if !scoring.Valid() {
        return Refused(InvalidScoring);
      }
      c := c.(scoring := scoring);
      if p.flag.Some? {
        if |A.FlagText(p.flag.value)| > config.maxFlagLength {
          return Refused(FlagTooLong);
        }
        c := c.(flag := p.flag.value);
      }
      if p.prerequisites.Some? {
        var refusal := LoadPrerequisites(p.prerequisites.value, Some(id));
        if refusal.Some? {
          return Refused(refusal.value);
        }
        c := c.(prerequisites := p.prerequisites.value);
      }
      c := c.(slug := A.Or(p.slug, c.slug), visible := A.Or(p.visible, c.visible),
              visibleAt := A.Or(p.visibleAt, c.visibleAt),
              maxAttempts := A.Or(p.maxAttempts, c.maxAttempts));
      if A.SlugTaken(challenges, c.slug, Some(id)) {
        return Refused(ChallengeConflict);
      }
      challenges := challenges[id := c];
      answer := Done;
    }

    method SetVisibility(id: Id, visible: bool) returns (answer: Response)
      requires Valid()
      modifies `challenges
      ensures Valid()
      ensures (State(), answer) == A.SetVisibility(old(State()), id, visible)
    {
      hide Sound;
      SetupKeepsSound(State(), E.DoSetVisibility(id, visible));
      if event.state == Archived {
        return Refused(EventArchived);
      }
      if id !in challenges {
        return Refused(ChallengeNotFound);
      }
      var challenge := challenges[id];
      challenges := challenges[id := challenge.(visible := visible)];
      answer := Done;
    }

    method CreateCode(maxUses: Option<nat>, expires: Option<Time>) returns (answer: Response)
      requires Valid()
      modifies `next, `codes
      ensures Valid()
      ensures (State(), answer) == A.CreateCode(old(State()), maxUses, expires)
    {
      hide Sound;
      SetupKeepsSound(State(), E.DoCreateCode(maxUses, expires));
      if event.state == Archived {
        return Refused(EventArchived);
      }
      var code := Draw();
      codes := codes[code := Code(maxUses, 0, expires, true, None)];
      answer := Invite(code);
    }

    method DeleteChallenge(id: Id) returns (answer: Response)
      requires Valid()
      modifies `challenges, `solves, `scores
      ensures Valid()
      ensures (State(), answer) == A.DeleteChallenge(old(State()), id)
    {
      hide Sound, ChallengeSubmitted, A.DropLinks, A.DropChallengeSolves, A.DropChallengeScores;
      SetupKeepsSound(State(), E.DoDeleteChallenge(id));
      if event.state == Archived {
        return Refused(EventArchived);
      }
      if id !in challenges {
        return Refused(ChallengeNotFound);
      }
      if ChallengeSubmitted(submissions, id) {
        return Refused(ChallengeHasSubmissions);
      }
      challenges := A.DropLinks(challenges, id);
      solves := A.DropChallengeSolves(solves, id);
      scores := A.DropChallengeScores(scores, id);
      answer := Done;
    }

    // ---------- serving ----------

    method PerformTeams(c: E.Command) returns (answer: Response)
      requires Valid() && E.OnTeams(c)
      modifies `next, `teams, `members, `audits, `submissions, `solves, `scores
      ensures Valid()
      ensures (State(), answer) == E.HandleTeams(old(State()), c)
    {
      hide Sound, T.CreateTeam, T.JoinTeam, T.RotateInvite, T.TransferOwner, T.RemoveMember, T.LeaveTeam;
      match c
      case DoCreateTeam(r, name) => answer := CreateTeam(r, name);
      case DoJoinTeam(r, invite) => answer := JoinTeam(r, invite);
      case DoRotateInvite(r) => answer := RotateInvite(r);
      case DoTransferOwner(r, target) => answer := TransferOwner(r, target);
      case DoRemoveMember(r, target) => answer := RemoveMember(r, target);
      case DoLeaveTeam(r) => answer := LeaveTeam(r);
    }

    method PerformBegin(c: E.Command) returns (answer: Response)
      requires Valid() && E.OnBegin(c)
      modifies `next, `flights
      ensures Valid()
      ensures (State(), answer) == E.HandleBegin(old(State()), c)
    {
      hide Sound, Database.Authenticate, U.RegisterBegin, U.LoginBegin, U.PasswordBegin;
      match c
      case DoAuthenticate(token, rate) => answer := Authenticate(token, rate);
      case DoRegisterBegin(email, username, password, access, rate) =>
        answer := RegisterBegin(email, username, password, access, rate);
      case DoLoginBegin(email, password, rate) => answer := LoginBegin(email, password, rate);
      case DoPasswordBegin(token, password, replacement, rate, userRate) =>
        answer := PasswordBegin(token, password, replacement, rate, userRate);
    }

    method PerformAccounts(c: E.Command) returns (answer: Response)
      requires Valid() && E.OnAccounts(c)
      modifies `next, `users, `sessions, `codes, `admissions, `teams, `members, `audits, `flights
      ensures Valid()
      ensures (State(), answer) == E.HandleAccounts(old(State()), c)
    {
      hide Sound, U.RegisterFinish, U.LoginAttempt, U.Logout, U.PasswordAttempt, U.SetPassword, A.UpdateUserStatus;
      match c
      case DoRegisterFinish(r, suffix) => answer := RegisterFinish(r, suffix);
      case DoLoginAttempt(r, rehash) => answer := LoginAttempt(r, rehash);
      case DoLogout(token) => answer := Logout(token);
      case DoPasswordAttempt(r) => answer := PasswordAttempt(r);
      case DoSetPassword(email, password) => answer := SetPassword(email, password);
      case DoUpdateUserStatus(id, active) => answer := UpdateUserStatus(id, active);
    }

    method PerformSetup(c: E.Command) returns (answer: Response)
      requires Valid() && E.OnSetup(c) && E.Timely(State(), c)
      modifies `next, `challenges, `solves, `scores, `codes
      ensures Valid()
      ensures (State(), answer) == E.HandleSetup(old(State()), c)
    {
      hide Sound, A.CreateChallenge, A.UpdateChallenge, A.DeleteChallenge, A.SetVisibility, A.CreateCode, A.RevokeCode;
      match c
      case DoCreateChallenge(challenge) => answer := CreateChallenge(challenge);
      case DoUpdateChallenge(id, patch, checked) => answer := UpdateChallenge(id, patch, checked);
      case DoDeleteChallenge(id) => answer := DeleteChallenge(id);
      case DoSetVisibility(id, visible) => answer := SetVisibility(id, visible);
      case DoCreateCode(maxUses, expires) => answer := CreateCode(maxUses, expires);
      case DoRevokeCode(code) => answer := RevokeCode(code);
    }

    /** One command, by the handler in charge. */
    method Handle(c: E.Command) returns (answer: Response)
      requires Valid() && E.Timely(State(), c)
      modifies this
      ensures Valid()
      ensures (State(), answer) == E.Handle(old(State()), c)
    {
      hide Sound, E.HandleTeams, E.HandleBegin, E.HandleAccounts, E.HandleSetup, P.SubmitFlag, A.UpdateEvent;
      if E.OnTeams(c) {
        answer := PerformTeams(c);
      } else if E.OnBegin(c) {
        answer := PerformBegin(c);
      } else if E.OnAccounts(c) {
        answer := PerformAccounts(c);
      } else if E.OnSetup(c) {
        answer := PerformSetup(c);
      } else {
        match c
        case DoSubmit(r, a) => answer := SubmitFlag(r, a);
        case DoUpdateEvent(p, checked) => answer := UpdateEvent(p, checked);
        case Elapse(dt) =>
          Tick(dt);
          answer := Done;
      }
    }

    /** One step of the contest: the command, and the end of its request unless its loop goes round again. */
    method Perform(c: E.Command) returns (answer: Response)
      requires Valid() && E.Timely(State(), c)
      modifies this
      ensures Valid()
      ensures State() == E.Step(old(State()), c) && answer == E.Handle(old(State()), c).1
    {
      hide Sound, E.Handle, E.Timely;
      StepKeepsSound(State(), c);
      answer := Handle(c);
      if E.Continues(c).Some? && answer != TryAgain {
        flights := flights - {E.Continues(c).value};
      }
    }

    /** A run of the contest, command by command: the server ends in the state of the run, gives its answers, and keeps
        its invariant throughout. */
    method Serve(commands: seq<E.Command>) returns (answers: seq<Response>)
      requires Valid() && E.TimelyRun(State(), commands)
      modifies this
      ensures Valid()
      ensures State() == E.Run(old(State()), commands)
      ensures |answers| == |commands|
      ensures forall k :: 0 <= k < |commands| ==>
                answers[k] == E.Handle(E.Run(old(State()), commands[..k]), commands[k]).1
    {
      hide Sound, E.Handle, E.Step, E.Timely;
      answers := [];
      var n := 0;
      assert commands[..0] == [];
      while n < |commands|
        invariant 0 <= n <= |commands| && |answers| == n
        invariant Valid() && State() == E.Run(old(State()), commands[..n])
        invariant forall k :: 0 <= k < n ==> answers[k] == E.Handle(E.Run(old(State()), commands[..k]), commands[k]).1
      {
        var answer := Perform(commands[n]);
        answers := answers + [answer];
        n := n + 1;
        assert commands[..n][..n - 1] == commands[..n - 1];
      }
      assert commands[..n] == commands;
    }
  }

  lemma OneMoreSolve(solves: seq<Solve>, solve: Solve, challenge: Id)
    requires solve.challenge == challenge
    ensures SolveCount(solves + [solve], challenge) == SolveCount(solves, challenge) + 1
  {
    assert (solves + [solve])[..|solves|] == solves;
  }

  lemma NoTeamWithInvite(teams: map<Id, Team>, invite: nat)
    requires forall t :: t in teams ==> teams[t].invite != invite
    ensures TeamWithInvite(teams, invite) == None
  {
  }

  lemma OnlyTeamWithInvite(teams: map<Id, Team>, invite: nat, team: Id)
    requires InvitesUnique(teams) && team in teams && teams[team].invite == invite
    ensures TeamWithInvite(teams, invite) == Some(team)
  {
    assert HasInvite(teams, invite, team);
  }

  lemma OnlyUserWithEmail(users: map<Id, User>, email: Name, user: Id)
    requires EmailsUnique(users) && user in users && users[user].email.folded == email.folded
    ensures UserWithEmail(users, email) == Some(user)
  {
    assert HasEmail(users, email, user);
  }

  lemma NoUserWithEmail(users: map<Id, User>, email: Name)
    requires forall u :: u in users ==> users[u].email.folded != email.folded
    ensures UserWithEmail(users, email) == None
  {
  }
}
