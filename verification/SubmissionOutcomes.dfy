/** What a submission comes to: the attempt limits over all runs, the refusals they lead to, and the rows, points and
    answer of an accepted flag. */
module SubmissionOutcomes {
  import opened Basics
  import opened Schema
  import opened Services
  import opened Database
  import opened TeamRoutes
  import opened SubmitRoute
  import opened AuthRoutes
  import opened AdminRoutes
  import opened Contest
  import opened WriteSets
  import opened TeamInvariants
  import opened SubmissionInvariants
  import C = ChallengeAccess
  import S = Scoring

  // ---------- counts are numbers of rows ----------

  /** The team's submissions on a challenge. */
  function Tries(rows: seq<Submission>, team: Id, challenge: Id): set<nat> {
    set i: nat | i < |rows| && rows[i].team == team && rows[i].challenge == challenge
  }

  function TriesOf(rows: seq<Submission>, team: Id): set<nat> {
    set i: nat | i < |rows| && rows[i].team == team
  }

  function SolvesOn(rows: seq<Solve>, challenge: Id): set<nat> {
    set i: nat | i < |rows| && rows[i].challenge == challenge
  }

  lemma {:induction false} TriesAreCounted(rows: seq<Submission>, team: Id, challenge: Id)
    ensures |Tries(rows, team, challenge)| == Attempts(rows, team, challenge)
  {
    if rows != [] {
      var n := |rows| - 1;
      TriesAreCounted(rows[..n], team, challenge);
      assert Tries(rows, team, challenge)
             == Tries(rows[..n], team, challenge)
                + (if rows[n].team == team && rows[n].challenge == challenge then {n} else {});
    }
  }

  lemma {:induction false} TriesOfAreCounted(rows: seq<Submission>, team: Id)
    ensures |TriesOf(rows, team)| == EventAttempts(rows, team)
  {
    if rows != [] {
      var n := |rows| - 1;
      TriesOfAreCounted(rows[..n], team);
      assert TriesOf(rows, team) == TriesOf(rows[..n], team) + (if rows[n].team == team then {n} else {});
    }
  }

  lemma {:induction false} SolvesAreCounted(rows: seq<Solve>, challenge: Id)
    ensures |SolvesOn(rows, challenge)| == SolveCount(rows, challenge)
  {
    if rows != [] {
      var n := |rows| - 1;
      SolvesAreCounted(rows[..n], challenge);
      assert SolvesOn(rows, challenge)
             == SolvesOn(rows[..n], challenge) + (if rows[n].challenge == challenge then {n} else {});
    }
  }

  // ---------- the limits over all runs ----------

  /** What a challenge's max_attempts lets a team try. */
  predicate WithinLimit(tries: nat, maxAttempts: nat) {
    tries <= 1000 && (maxAttempts != 0 ==> tries <= maxAttempts)
  }

  ghost predicate LimitHolds(db: Db, id: Id) {
    forall team :: id in db.challenges ==>
      WithinLimit(Attempts(db.log.submissions, team, id), db.challenges[id].maxAttempts)
  }

  /** The command gives this challenge no max_attempts below the one it has; 0 stands for none. */
  predicate LowersNothing(db: Db, c: Command, id: Id) {
    c.DoUpdateChallenge? && c.id == id && id in db.challenges && c.patch.maxAttempts.Some? ==>
      var before, after := db.challenges[id].maxAttempts, c.patch.maxAttempts.value;
      after == 0 || after >= 1000 || 0 < before <= after
  }

  lemma NoTriesOnUnknown(db: Db, id: Id, team: Id)
    requires LogInv(db) && id !in db.challenges
    ensures Attempts(db.log.submissions, team, id) == 0
  {
    TriesAreCounted(db.log.submissions, team, id);
    forall i: nat | i < |db.log.submissions| ensures i !in Tries(db.log.submissions, team, id) { }
    assert Tries(db.log.submissions, team, id) == {};
  }

  lemma SubmitKeepsLimit(db: Db, r: nat, a: Attempt, id: Id)
    requires LimitHolds(db, id)
    ensures LimitHolds(SubmitFlag(db, r, a).0, id)
  {
    AcceptedExactly(db, r, a);
    if Rule(db, r, a).Accept? {
      AcceptIsAdmitted(db, r, a);
      AcceptedBy(db, r, a);
    }
    hide Rule, IsCorrect, GatesOpen, Admitted, S.ChallengePoints, SolveCount, TakesSubmissions, Attempts;
    var rows, rows' := db.log.submissions, SubmitFlag(db, r, a).0.log.submissions;
    forall team | id in db.challenges
      ensures WithinLimit(Attempts(rows', team, id), db.challenges[id].maxAttempts)
    {
      if Rule(db, r, a).Accept? { OneMoreTry(rows, rows'[|rows|], team, id); }
    }
  }

  lemma AcceptedBy(db: Db, r: nat, a: Attempt)
    requires Rule(db, r, a).Accept?
    ensures r in db.flights && db.flights[r].Authenticated? && db.flights[r].user in db.roster.members
    ensures Rule(db, r, a).team == TeamOf(db, r) && Rule(db, r, a).user == db.flights[r].user
    ensures a.challenge in db.challenges && Rule(db, r, a).challenge == db.challenges[a.challenge]
  {
    hide StoredUnder, IsSolved, Attempts, EventAttempts, IsAccessible, StillSignedIn, AllowsSubmission;
  }

  lemma OneMoreTry(rows: seq<Submission>, s: Submission, team: Id, challenge: Id)
    ensures Attempts(rows + [s], team, challenge)
            == Attempts(rows, team, challenge) + (if s.team == team && s.challenge == challenge then 1 else 0)
  {
    assert (rows + [s])[..|rows|] == rows;
  }

  /** How each command may change max_attempts. */
  lemma SetupLimits(db: Db, c: Command, id: Id)
    requires OnSetup(c) && LowersNothing(db, c, id) && id in HandleSetup(db, c).0.challenges
    ensures id in db.challenges ==>
              var before, after := db.challenges[id].maxAttempts, HandleSetup(db, c).0.challenges[id].maxAttempts;
              after == before || after == 0 || after >= 1000 || 0 < before <= after
                || (c.DoCreateChallenge? && id == db.next)
    ensures id !in db.challenges ==> c.DoCreateChallenge? && id == db.next
  {
    hide CreateRefusal, UpdateRefusal, NewScoring, ChallengeSubmitted, DropChallengeScores, DropChallengeSolves;
  }

  lemma StepKeepsLimit(db: Db, c: Command, id: Id)
    requires LogInv(db) && TeamInv(db) && LimitHolds(db, id) && LowersNothing(db, c, id)
    requires forall k :: k in db.challenges ==> k < db.next
    ensures LimitHolds(Step(db, c), id)
  {
    hide LogInv, TeamInv, Handle, Step, HandleSetup, SubmitFlag, LowersNothing, Attempts;
    StepCloses(db, c);
    HandleIs(db, c);
    if c.DoSubmit? {
      SubmitKeepsLimit(db, c.r, c.attempt, id);
      HandleWrites(db, c);
    } else {
      HandleKeepsLog(db, c);
      if OnSetup(c) {
        if id in Handle(db, c).0.challenges { SetupLimits(db, c, id); }
        if id !in db.challenges {
          forall team ensures Attempts(db.log.submissions, team, id) == 0 { NoTriesOnUnknown(db, id, team); }
        }
      } else {
        HandleWrites(db, c);
      }
    }
  }

  ghost predicate NeverLowered(db: Db, commands: seq<Command>, id: Id) {
    forall k :: 0 <= k < |commands| ==> LowersNothing(Run(db, commands[..k]), commands[k], id)
  }

  lemma {:induction false} RunKeepsLimit(db: Db, commands: seq<Command>, id: Id)
    requires LogInv(db) && TeamInv(db) && C.GraphInv(db.challenges, db.next) && LimitHolds(db, id)
    requires NeverLowered(db, commands, id)
    ensures LimitHolds(Run(db, commands), id)
  {
    hide LogInv, TeamInv, C.GraphInv, LimitHolds, Step, LowersNothing;
    if commands != [] {
      var n := |commands| - 1;
      forall k | 0 <= k < n ensures LowersNothing(Run(db, commands[..n][..k]), commands[..n][k], id) {
        assert commands[..n][..k] == commands[..k];
      }
      RunKeepsLimit(db, commands[..n], id);
      RunKeepsLog(db, commands[..n]);
      C.RunKeepsGraph(db, commands[..n]);
      IdsAreDrawn(Run(db, commands[..n]));
      assert LowersNothing(Run(db, commands[..n]), commands[n], id);
      StepKeepsLimit(Run(db, commands[..n]), commands[n], id);
    }
  }

  lemma IdsAreDrawn(db: Db)
    requires C.GraphInv(db.challenges, db.next)
    ensures forall k :: k in db.challenges ==> k < db.next
  {
  }

  /** Over every run that does not lower it, no team has more submissions on a challenge than its max_attempts, if it
      has one, nor more than 1,000. */
  lemma LimitsAlwaysHold(start: Db, commands: seq<Command>, id: Id, team: Id)
    requires Bootstrapped(start) && NeverLowered(start, commands, id) && id in Run(start, commands).challenges
    ensures var db := Run(start, commands); var m := db.challenges[id].maxAttempts;
            |Tries(db.log.submissions, team, id)| <= 1000
            && (m != 0 ==> |Tries(db.log.submissions, team, id)| <= m)
  {
    var db := Run(start, commands);
    BootstrappedLog(start);
    C.BootstrappedGraph(start);
    hide Run, LogInv, TeamInv, C.GraphInv, NeverLowered;
    RunKeepsLimit(start, commands, id);
    TriesAreCounted(db.log.submissions, team, id);
  }

  // ---------- refusals ----------

  /** A submission for which everything else is in order is refused once the team has used up the challenge's
      max_attempts, and then, or at 1,000 tries or 10,000 submissions in the event, nothing is written. */
  lemma LimitRefuses(db: Db, r: nat, a: Attempt)
    requires GatesOpen(db, r, a)
    ensures var team := TeamOf(db, r); var m := db.challenges[a.challenge].maxAttempts;
            var tries := |Tries(db.log.submissions, team, a.challenge)|;
            && (m != 0 && tries >= Min(m, 1000) ==> SubmitFlag(db, r, a) == (db, Refused(AttemptLimitReached)))
            && (m == 0 && tries >= 1000 ==> SubmitFlag(db, r, a) == (db, Refused(StorageLimitReached)))
            && ((m == 0 || tries < m) && tries < 1000 && |TriesOf(db.log.submissions, team)| >= 10000 ==>
                  SubmitFlag(db, r, a) == (db, Refused(StorageLimitReached)))
            && ((m == 0 || tries < m) && tries < 1000 && |TriesOf(db.log.submissions, team)| < 10000
                && !TakesSubmissions(db.event, db.now) ==>
                  SubmitFlag(db, r, a) == (db, Refused(SubmissionsClosed)))
  {
    var team := TeamOf(db, r);
    TriesAreCounted(db.log.submissions, team, a.challenge);
    TriesOfAreCounted(db.log.submissions, team);
    StoredExactly(db.log.submissions, team, a.challenge, a.key);
    AccessibleExactly(db.challenges[a.challenge], db.log.solves, team, a.accessAt);
    hide StoredUnder, IsSolved, Attempts, EventAttempts, IsAccessible, Tries, TriesOf;
  }

  // ---------- an accepted flag ----------

  /** Whether the flag is right: an exact one is the very text, a pattern has to match both times. */
  predicate FlagIsRight(flag: Flag, a: Attempt) {
    match flag
    case Exact(text) => a.flag == text
    case Regex(_) => a.firstMatch && a.secondMatch
  }

  /** The rows of an accepted submission, and its answer: the flag decides, and a right one earns the fair price of
      the next solve of the challenge. */
  lemma AcceptedRows(db: Db, r: nat, a: Attempt)
    requires Rule(db, r, a).Accept?
    ensures r in db.flights && db.flights[r].Authenticated? && db.flights[r].user in db.roster.members
    ensures a.challenge in db.challenges
    ensures var (db', answer) := SubmitFlag(db, r, a);
            var team, user, challenge := TeamOf(db, r), db.flights[r].user, db.challenges[a.challenge];
            var right := FlagIsRight(challenge.flag, a);
            && |db'.log.submissions| == |db.log.submissions| + 1
            && var s := db'.log.submissions[|db.log.submissions|];
            && db'.log.submissions == db.log.submissions + [s]
            && s.team == team && s.user == user && s.challenge == a.challenge && s.key == a.key && s.at == a.storedAt
            && s.correct == right && (!right ==> s.awarded == 0)
            && answer == Verdict(right, false, s.awarded, if right then Some(a.solvedAt) else None)
            && (!right ==> db'.log.solves == db.log.solves && db'.log.scores == db.log.scores)
            && (right ==>
                  && |db'.log.solves| == |db.log.solves| + 1 && |db'.log.scores| == |db.log.scores| + 1
                  && S.FairPrice(challenge.scoring, |SolvesOn(db.log.solves, a.challenge)| + 1, s.awarded)
                  && var v := db'.log.solves[|db.log.solves|]; var e := db'.log.scores[|db.log.scores|];
                  && db'.log.solves == db.log.solves + [v] && db'.log.scores == db.log.scores + [e]
                  && v.team == team && v.user == user && v.challenge == a.challenge && v.at == a.solvedAt
                  && e.team == team && e.challenge == Some(a.challenge) && e.points == s.awarded && e.active
                  && e.at == a.scoredAt)
  {
    AcceptedBy(db, r, a);
    SolvesAreCounted(db.log.solves, a.challenge);
    var challenge := db.challenges[a.challenge];
    S.PointsAreFair(challenge.scoring, SolveCount(db.log.solves, a.challenge) + 1);
    hide Rule, S.ChallengePoints, S.FairPrice, SolveCount, SolvesOn;
  }

  // ---------- the earlier gates ----------

  /** The challenge is there, visible at that instant and unlocked for the team. */
  ghost predicate CanSee(db: Db, team: Id, a: Attempt) {
    && a.challenge in db.challenges
    && var c := db.challenges[a.challenge];
    && c.visible && !(c.visibleAt.Some? && a.accessAt < c.visibleAt.value)
    && forall p :: p in c.prerequisites ==> IsSolved(db.log.solves, team, p)
  }

  predicate KeyIsNew(db: Db, team: Id, a: Attempt) {
    forall i :: 0 <= i < |db.log.submissions| ==>
      var s := db.log.submissions[i]; !(s.team == team && s.challenge == a.challenge && s.key == a.key)
  }

  /** Before the idempotency key is looked up: the event's window, the team, the flag's length. A key that is stored
      already is answered with a verdict, and nothing is written. */
  lemma EarlyGateAnswers(db: Db, r: nat, a: Attempt)
    requires r in db.flights && db.flights[r].Authenticated?
    ensures var user := db.flights[r].user; var result := SubmitFlag(db, r, a);
            if !TakesSubmissions(db.event, a.gateAt) then result == (db, Refused(SubmissionsClosed))
            else if user !in db.roster.members then result == (db, Refused(TeamRequired))
            else if |a.flag| > db.config.maxFlagLength then result == (db, Refused(FlagTooLong))
            else !KeyIsNew(db, TeamOf(db, r), a) ==> result.0 == db && result.1.Verdict?
  {
    if db.flights[r].user in db.roster.members {
      StoredExactly(db.log.submissions, TeamOf(db, r), a.challenge, a.key);
    }
    hide StoredUnder, Record, UnderLocks;
  }

  /** After it: the rate windows, the session, the challenge, which a team that may not see it is told does not exist,
      and the team's own solve of it. */
  lemma LateGateAnswers(db: Db, r: nat, a: Attempt)
    requires r in db.flights && db.flights[r].Authenticated? && db.flights[r].user in db.roster.members
    requires TakesSubmissions(db.event, a.gateAt) && |a.flag| <= db.config.maxFlagLength
    requires KeyIsNew(db, TeamOf(db, r), a) && TeamOf(db, r) in db.roster.teams
    ensures var team := TeamOf(db, r); var result := SubmitFlag(db, r, a);
            if !a.rate then result == (db, Refused(RateLimited))
            else if !SessionStands(db, db.flights[r]) then result == (db, Refused(InvalidSession))
            else if !CanSee(db, team, a) then result == (db, Refused(ChallengeNotFound))
            else IsSolved(db.log.solves, team, a.challenge) ==>
              result == (db, Verdict(true, true, 0, SolvedAt(db.log.solves, team, a.challenge)))
  {
    var team := TeamOf(db, r);
    StoredExactly(db.log.submissions, team, a.challenge, a.key);
    if a.challenge in db.challenges {
      AccessibleExactly(db.challenges[a.challenge], db.log.solves, team, a.accessAt);
    }
    hide StoredUnder, IsSolved, Attempts, EventAttempts, IsAccessible, Record, SolvedAt;
  }
}
