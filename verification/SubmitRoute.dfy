/** submit_flag of backend/src/alpha/routes_participant.py as one transaction: the shared Event lock
    keeps every challenge and event edit out, and the Team and Challenge locks keep its counts stable.
    SubmissionProtocol shows that for the interleaved statements. */
module SubmitRoute {
  import opened Basics
  import opened Schema
  import opened Services
  import opened Database
  import S = Scoring

  /** What the request carries and what the world answers it: `rate` is the verdict of the three rate windows; the
      five instants are those at which the handler reads the clock, for its first gate, for the accessibility of the
      challenge, and for the stamps of the submission, the solve and the score; and the two booleans are the outcomes
      of matching a regular expression, which a timeout can spoil. */
  datatype Attempt = Attempt(
    challenge: Id, key: string, flag: string, rate: bool,
    gateAt: Time, accessAt: Time, storedAt: Time, solvedAt: Time, scoredAt: Time,
    firstMatch: bool, secondMatch: bool)

  predicate VisibleNow(challenge: Challenge, now: Time) {
    challenge.visible && (challenge.visibleAt.None? || challenge.visibleAt.value <= now)
  }

  /** _is_accessible */
  predicate IsAccessible(challenge: Challenge, solved: set<Id>, now: Time) {
    VisibleNow(challenge, now) && forall p :: p in challenge.prerequisites ==> p in solved
  }

  predicate Matches(flag: Flag, text: string, regexMatch: bool) {
    match flag
    case Exact(secret) => secret == text
    case Regex(_) => regexMatch
  }

  /** The first comparison is made without the Challenge lock, the second under it. */
  predicate IsCorrect(challenge: Challenge, a: Attempt) {
    Matches(challenge.flag, a.flag, a.firstMatch) && Matches(challenge.flag, a.flag, a.secondMatch)
  }

  function SolveOf(solves: seq<Solve>, submission: Id): Option<Time> {
    if solves == [] then None
    else if solves[|solves| - 1].submission == submission then Some(solves[|solves| - 1].at)
    else SolveOf(solves[..|solves| - 1], submission)
  }

  /** _submission_result */
  function SubmissionResult(solves: seq<Solve>, s: Submission): Response {
    Verdict(s.correct, false, s.awarded, if s.correct then SolveOf(solves, s.id) else None)
  }

  /** The stored submission of this team and challenge under this key. */
  function StoredUnder(rows: seq<Submission>, team: Id, challenge: Id, key: string): Option<Submission> {
    if rows == [] then None
    else if IsStored(rows[|rows| - 1], team, challenge, key) then Some(rows[|rows| - 1])
    else StoredUnder(rows[..|rows| - 1], team, challenge, key)
  }

  /** The instant of the team's solve of this challenge. */
  function SolvedAt(solves: seq<Solve>, team: Id, challenge: Id): Option<Time> {
    if solves == [] then None
    else
      var last := solves[|solves| - 1];
      if last.team == team && last.challenge == challenge then Some(last.at)
      else SolvedAt(solves[..|solves| - 1], team, challenge)
  }

  function AttemptLimit(challenge: Challenge): nat {
    Min(if challenge.maxAttempts == 0 then MAX_CHALLENGE_ATTEMPTS else challenge.maxAttempts, MAX_CHALLENGE_ATTEMPTS)
  }

  /** The gates before the first lookup of the idempotency key; success names the caller's team. */
  function Gate(db: Db, r: nat, a: Attempt): (team: Result<Id, Error>)
    ensures team.Success? ==> r in db.flights && db.flights[r].Authenticated?
  {
    if r !in db.flights || !db.flights[r].Authenticated? then Failure(InvalidSession)
    else if !AllowsSubmission(db.event, a.gateAt) then Failure(SubmissionsClosed)
    else if db.flights[r].user !in db.roster.members then Failure(TeamRequired)
    else if |a.flag| > db.config.maxFlagLength then Failure(FlagTooLong)
    else Success(db.roster.members[db.flights[r].user].team)
  }

  /** The locked User row and the session re-read under that lock. */
  predicate StillSignedIn(db: Db, f: Flight)
    requires f.Authenticated?
  {
    f.user in db.accounts.users && db.accounts.users[f.user].active && Accepts(db, f.token)
      && db.accounts.sessions[f.token].user == f.user
  }

  /** The checks under the locks, in their order. */
  function Admit(db: Db, r: nat, team: Id, a: Attempt): Result<Challenge, Error>
    requires r in db.flights && db.flights[r].Authenticated?
  {
    if !a.rate then Failure(RateLimited)
    else if !StillSignedIn(db, db.flights[r]) then Failure(InvalidSession)
    else if team !in db.roster.teams then Failure(TeamRequired)
    else if a.challenge !in db.challenges
      || !IsAccessible(db.challenges[a.challenge], SolvedBy(db.log.solves, team), a.accessAt)
    then Failure(ChallengeNotFound)
    else Success(db.challenges[a.challenge])
  }

  /** What the handler decides before it writes anything. */
  datatype Ruling = Reply(response: Response) | Accept(user: Id, team: Id, challenge: Challenge)

  /** The lookups and counts made under the Team lock. */
  function UnderLocks(db: Db, r: nat, team: Id, a: Attempt): Ruling
    requires r in db.flights && db.flights[r].Authenticated?
  {
    match Admit(db, r, team, a)
    case Failure(e) => Reply(Refused(e))
    case Success(challenge) =>
      if IsSolved(db.log.solves, team, a.challenge)
      then Reply(Verdict(true, true, 0, SolvedAt(db.log.solves, team, a.challenge)))
      else if Attempts(db.log.submissions, team, a.challenge) >= AttemptLimit(challenge) then
        Reply(Refused(if challenge.maxAttempts != 0 then AttemptLimitReached else StorageLimitReached))
      else if EventAttempts(db.log.submissions, team) >= MAX_SUBMISSIONS_PER_TEAM_EVENT
      then Reply(Refused(StorageLimitReached))
      else if !AllowsSubmission(db.event, db.now) then Reply(Refused(SubmissionsClosed))
      else Accept(db.flights[r].user, team, challenge)
  }

  function Rule(db: Db, r: nat, a: Attempt): Ruling {
    match Gate(db, r, a)
    case Failure(e) => Reply(Refused(e))
    case Success(team) =>
      match StoredUnder(db.log.submissions, team, a.challenge, a.key)
      case Some(stored) => Reply(SubmissionResult(db.log.solves, stored))
      case None => UnderLocks(db, r, team, a)
  }

  /** submit_flag */
  function SubmitFlag(db: Db, r: nat, a: Attempt): (Db, Response) {
    match Rule(db, r, a)
    case Reply(response) => (db, response)
    case Accept(user, team, challenge) => Record(db, user, team, challenge, a)
  }

  /** The rows of an accepted submission. */
  function Record(db: Db, user: Id, team: Id, challenge: Challenge, a: Attempt): (Db, Response) {
    var id := db.next;
    if !IsCorrect(challenge, a) then
      (db.(next := db.next + 1,
           log := db.log.(submissions :=
             db.log.submissions + [Submission(id, team, a.challenge, user, false, 0, a.key, a.storedAt)])),
       Verdict(false, false, 0, None))
    else
      var solve := Solve(db.next + 1, team, a.challenge, user, id, a.solvedAt);
      var points := S.ChallengePoints(challenge.scoring, SolveCount(db.log.solves, a.challenge) + 1);
      (db.(next := db.next + 3,
           log := Log(
             db.log.submissions + [Submission(id, team, a.challenge, user, true, points, a.key, a.storedAt)],
             db.log.solves + [solve],
             db.log.scores
               + [ScoreEvent(db.next + 2, team, Some(a.challenge), SolveScore(solve.id), points, true, a.scoredAt)])),
       Verdict(true, false, points, Some(a.solvedAt)))
  }
}
