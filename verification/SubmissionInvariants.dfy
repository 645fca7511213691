/** What every reachable state keeps about submissions, solves and scores, and what replaying a stored
    submission can do. */
module SubmissionInvariants {
  import opened Basics
  import opened Schema
  import opened Services
  import opened Database
  import opened TeamRoutes
  import opened SubmitRoute
  import opened AuthRoutes
  import opened AdminRoutes
  import opened Contest
  import opened WriteSets
  import opened TeamInvariants
  import S = Scoring

  function CorrectOnes(rows: seq<Submission>): seq<Submission> {
    if rows == [] then []
    else var n := |rows| - 1; CorrectOnes(rows[..n]) + (if rows[n].correct then [rows[n]] else [])
  }

  /** One correct submission with its solve and its score event. */
  predicate Matched(s: Submission, v: Solve, e: ScoreEvent) {
    && v.submission == s.id && v.team == s.team && v.challenge == s.challenge && v.user == s.user
    && e.kind == SolveScore(v.id) && e.team == s.team && e.challenge == Some(s.challenge) && e.points == s.awarded
    && e.active
  }

  /** Correct submissions, solves and score events correspond one to one, in commit order. */
  ghost predicate Corresponds(log: Log) {
    && |CorrectOnes(log.submissions)| == |log.solves| == |log.scores|
    && forall i :: 0 <= i < |log.solves| ==> Matched(CorrectOnes(log.submissions)[i], log.solves[i], log.scores[i])
  }

  ghost predicate WrongEarnsNothing(rows: seq<Submission>) {
    forall i :: 0 <= i < |rows| && !rows[i].correct ==> rows[i].awarded == 0
  }

  /** Ids rise, and no two rows of a team and challenge share an idempotency key. */
  ghost predicate RowsDistinct(rows: seq<Submission>, next: nat) {
    && (forall i :: 0 <= i < |rows| ==> rows[i].id < next)
    && (forall i, j :: 0 <= i < j < |rows| ==>
          rows[i].id < rows[j].id && !IsStored(rows[i], rows[j].team, rows[j].challenge, rows[j].key))
  }

  /** A team solves a challenge once. */
  ghost predicate SolvedOnce(solves: seq<Solve>) {
    forall i, j :: 0 <= i < j < |solves| ==>
      solves[i].team != solves[j].team || solves[i].challenge != solves[j].challenge
  }

  ghost predicate Capped(rows: seq<Submission>) {
    && (forall t, c :: Attempts(rows, t, c) <= MAX_CHALLENGE_ATTEMPTS)
    && (forall t :: EventAttempts(rows, t) <= MAX_SUBMISSIONS_PER_TEAM_EVENT)
  }

  /** A submitted challenge is still there, and its author is still on the team it was made for. */
  ghost predicate Anchored(
    rows: seq<Submission>, members: map<Id, Membership>, teams: map<Id, Team>, challenges: map<Id, Challenge>)
  {
    forall i :: 0 <= i < |rows| ==>
      && rows[i].challenge in challenges && rows[i].team in teams
      && rows[i].user in members && members[rows[i].user].team == rows[i].team
  }

  ghost predicate LogInv(db: Db) {
    && Corresponds(db.log) && WrongEarnsNothing(db.log.submissions) && RowsDistinct(db.log.submissions, db.next)
    && SolvedOnce(db.log.solves) && Capped(db.log.submissions)
    && Anchored(db.log.submissions, db.roster.members, db.roster.teams, db.challenges)
  }

  // ---------- the lookups of submit_flag ----------

  lemma {:induction false} StoredIsFound(rows: seq<Submission>, next: nat, i: nat)
    requires RowsDistinct(rows, next) && i < |rows|
    ensures StoredUnder(rows, rows[i].team, rows[i].challenge, rows[i].key) == Some(rows[i])
  {
    var n := |rows| - 1;
    if i < n { StoredIsFound(rows[..n], next, i); }
  }

  lemma {:induction false} CorrectOnesFrom(rows: seq<Submission>, next: nat)
    requires RowsDistinct(rows, next)
    ensures forall k :: 0 <= k < |CorrectOnes(rows)| ==> CorrectOnes(rows)[k] in rows
    ensures forall j, k :: 0 <= j < k < |CorrectOnes(rows)| ==> CorrectOnes(rows)[j].id < CorrectOnes(rows)[k].id
  {
    if rows != [] {
      var n := |rows| - 1;
      CorrectOnesFrom(rows[..n], next);
      forall k | 0 <= k < |CorrectOnes(rows[..n])|
        ensures CorrectOnes(rows[..n])[k] in rows && CorrectOnes(rows[..n])[k].id < rows[n].id
      {
        var i :| 0 <= i < n && rows[i] == CorrectOnes(rows[..n])[k];
      }
    }
  }

  lemma {:induction false} CorrectIsListed(rows: seq<Submission>, i: nat) returns (k: nat)
    requires i < |rows| && rows[i].correct
    ensures k < |CorrectOnes(rows)| && CorrectOnes(rows)[k] == rows[i]
  {
    var n := |rows| - 1;
    if i < n { k := CorrectIsListed(rows[..n], i); } else { k := |CorrectOnes(rows[..n])|; }
  }

  lemma {:induction false} SolveIsFound(solves: seq<Solve>, k: nat)
    requires k < |solves|
    requires forall j :: k < j < |solves| ==> solves[j].submission != solves[k].submission
    ensures SolveOf(solves, solves[k].submission) == Some(solves[k].at)
  {
    var n := |solves| - 1;
    if k < n { SolveIsFound(solves[..n], k); }
  }

  /** A team that submits a solved challenge again is told the instant of its solve. */
  lemma {:induction false} SolvedAtIsTheSolve(solves: seq<Solve>, k: nat)
    requires SolvedOnce(solves) && k < |solves|
    ensures SolvedAt(solves, solves[k].team, solves[k].challenge) == Some(solves[k].at)
  {
    var n := |solves| - 1;
    if k < n { SolvedAtIsTheSolve(solves[..n], k); }
  }

  /** The solve that belongs to a correct submission is the one _submission_result finds. */
  lemma SolveOfCorrect(log: Log, next: nat, i: nat) returns (k: nat)
    requires Corresponds(log) && RowsDistinct(log.submissions, next)
    requires i < |log.submissions| && log.submissions[i].correct
    ensures k < |log.solves| && log.solves[k].submission == log.submissions[i].id
    ensures SolveOf(log.solves, log.submissions[i].id) == Some(log.solves[k].at)
  {
    var s := log.submissions[i];
    k := CorrectIsListed(log.submissions, i);
    CorrectOnesFrom(log.submissions, next);
    assert Matched(s, log.solves[k], log.scores[k]);
    forall j | k < j < |log.solves| ensures log.solves[j].submission != log.solves[k].submission {
      assert Matched(CorrectOnes(log.submissions)[j], log.solves[j], log.scores[j]);
    }
    SolveIsFound(log.solves, k);
  }

  lemma SolveOfUnique(log: Log, next: nat, j: nat, k: nat)
    requires Corresponds(log) && RowsDistinct(log.submissions, next) && j < |log.solves| && k < |log.solves|
    requires log.solves[j].submission == log.solves[k].submission
    ensures j == k
  {
    CorrectOnesFrom(log.submissions, next);
    assert Matched(CorrectOnes(log.submissions)[j], log.solves[j], log.scores[j]);
    assert Matched(CorrectOnes(log.submissions)[k], log.solves[k], log.scores[k]);
  }

  /** What a stored submission is answered with does not change as the log grows. */
  lemma ResultIsStable(log: Log, later: Log, next: nat, i: nat)
    requires Corresponds(log) && Corresponds(later) && RowsDistinct(log.submissions, next)
             && RowsDistinct(later.submissions, next)
    requires log.submissions <= later.submissions && log.solves <= later.solves && i < |log.submissions|
    ensures SubmissionResult(later.solves, later.submissions[i]) == SubmissionResult(log.solves, log.submissions[i])
  {
    if log.submissions[i].correct {
      var k := SolveOfCorrect(log, next, i);
      var j := SolveOfCorrect(later, next, i);
      SolveOfUnique(later, next, j, k);
    }
  }

  // ---------- an accepted submission ----------

  lemma AppendCorrectOnes(rows: seq<Submission>, s: Submission)
    ensures CorrectOnes(rows + [s]) == CorrectOnes(rows) + (if s.correct then [s] else [])
  {
    assert (rows + [s])[..|rows|] == rows;
  }

  lemma AppendSubmission(rows: seq<Submission>, next: nat, s: Submission, next': nat)
    requires RowsDistinct(rows, next) && WrongEarnsNothing(rows) && s.id == next < next'
             && (s.correct || s.awarded == 0)
    requires StoredUnder(rows, s.team, s.challenge, s.key).None?
    ensures RowsDistinct(rows + [s], next') && WrongEarnsNothing(rows + [s])
  {
    StoredExactly(rows, s.team, s.challenge, s.key);
  }

  lemma AppendCapped(rows: seq<Submission>, s: Submission)
    requires Capped(rows)
    requires Attempts(rows, s.team, s.challenge) < MAX_CHALLENGE_ATTEMPTS
    requires EventAttempts(rows, s.team) < MAX_SUBMISSIONS_PER_TEAM_EVENT
    ensures Capped(rows + [s])
  {
    assert (rows + [s])[..|rows|] == rows;
    forall t ensures EventAttempts(rows + [s], t) <= MAX_SUBMISSIONS_PER_TEAM_EVENT {
      assert EventAttempts(rows, t) <= MAX_SUBMISSIONS_PER_TEAM_EVENT;
    }
  }

  lemma AppendMatched(log: Log, s: Submission, v: Solve, e: ScoreEvent)
    requires Corresponds(log) && s.correct && Matched(s, v, e)
    ensures Corresponds(Log(log.submissions + [s], log.solves + [v], log.scores + [e]))
  {
    AppendCorrectOnes(log.submissions, s);
    hide Matched, CorrectOnes;
  }

  lemma AppendWrong(log: Log, s: Submission)
    requires Corresponds(log) && !s.correct
    ensures Corresponds(log.(submissions := log.submissions + [s]))
  {
    AppendCorrectOnes(log.submissions, s);
    hide Matched, CorrectOnes;
  }

  /** What the locked checks have established when rows are written. */
  ghost predicate Admitted(db: Db, user: Id, team: Id, a: Attempt) {
    && user in db.roster.members && db.roster.members[user].team == team && team in db.roster.teams
    && a.challenge in db.challenges
    && StoredUnder(db.log.submissions, team, a.challenge, a.key).None?
    && !IsSolved(db.log.solves, team, a.challenge)
    && Attempts(db.log.submissions, team, a.challenge) < MAX_CHALLENGE_ATTEMPTS
    && EventAttempts(db.log.submissions, team) < MAX_SUBMISSIONS_PER_TEAM_EVENT
  }

  lemma AcceptIsAdmitted(db: Db, r: nat, a: Attempt)
    requires Rule(db, r, a).Accept?
    ensures var v := Rule(db, r, a); Admitted(db, v.user, v.team, a) && db.challenges[a.challenge] == v.challenge
  {
    hide StoredUnder, IsSolved, Attempts, EventAttempts, IsAccessible, StillSignedIn, AllowsSubmission;
  }

  /** At this instant the event takes submissions. */
  predicate TakesSubmissions(event: Event, now: Time) {
    && (event.state == Live || event.state == Frozen)
    && (event.startAt.Some? ==> event.startAt.value <= now) && (event.endAt.Some? ==> now < event.endAt.value)
  }

  /** The request's account is active, and its session is there, is the account's, has not expired and is of the
      account's present generation. */
  predicate SessionStands(db: Db, f: Flight)
    requires f.Authenticated?
  {
    && f.user in db.accounts.users && db.accounts.users[f.user].active
    && f.token in db.accounts.sessions
    && var s := db.accounts.sessions[f.token];
    s.user == f.user && db.now < s.expires && s.version == db.accounts.users[f.user].version
  }

  /** Every gate but the caps: the event takes submissions at the stamp, the author is signed in and on a team, the
      flag is short enough, the rate windows have room, the key is new, and the challenge is visible at that instant,
      unlocked for the team and unsolved. */
  predicate GatesOpen(db: Db, r: nat, a: Attempt) {
    && r in db.flights && db.flights[r].Authenticated? && SessionStands(db, db.flights[r]) && a.rate
    && TakesSubmissions(db.event, a.gateAt) && |a.flag| <= db.config.maxFlagLength
    && db.flights[r].user in db.roster.members
    && var team := db.roster.members[db.flights[r].user].team;
    && team in db.roster.teams
    && (forall i :: 0 <= i < |db.log.submissions| ==>
          var s := db.log.submissions[i]; !(s.team == team && s.challenge == a.challenge && s.key == a.key))
    && a.challenge in db.challenges
    && var c := db.challenges[a.challenge];
    && c.visible && !(c.visibleAt.Some? && a.accessAt < c.visibleAt.value)
    && (forall p :: p in c.prerequisites ==> IsSolved(db.log.solves, team, p))
    && !IsSolved(db.log.solves, team, a.challenge)
  }

  /** The team of the request's author. */
  function TeamOf(db: Db, r: nat): Id
    requires r in db.flights && db.flights[r].Authenticated? && db.flights[r].user in db.roster.members
  {
    db.roster.members[db.flights[r].user].team
  }

  /** Rows are written exactly when every gate is open, the team has made fewer attempts on the challenge than its
      max_attempts, if it has one, and than 1,000, fewer than 10,000 in the event, and the event still takes
      submissions at the commit. */
  lemma AcceptedExactly(db: Db, r: nat, a: Attempt)
    ensures Rule(db, r, a).Accept? <==>
              && GatesOpen(db, r, a)
              && var n := Attempts(db.log.submissions, TeamOf(db, r), a.challenge);
                 var m := db.challenges[a.challenge].maxAttempts;
              && (m != 0 ==> n < m) && n < 1000
              && EventAttempts(db.log.submissions, TeamOf(db, r)) < 10000
              && TakesSubmissions(db.event, db.now)
  {
    if r in db.flights && db.flights[r].Authenticated? && db.flights[r].user in db.roster.members {
      var team := db.roster.members[db.flights[r].user].team;
      StoredExactly(db.log.submissions, team, a.challenge, a.key);
      if a.challenge in db.challenges {
        AccessibleExactly(db.challenges[a.challenge], db.log.solves, team, a.accessAt);
      }
    }
    hide StoredUnder, IsSolved, Attempts, EventAttempts, IsAccessible;
  }

  /** Accessible means visible at that instant with every prerequisite solved by the team. */
  lemma AccessibleExactly(c: Challenge, solves: seq<Solve>, team: Id, now: Time)
    ensures IsAccessible(c, SolvedBy(solves, team), now) <==>
              && c.visible && !(c.visibleAt.Some? && now < c.visibleAt.value)
              && forall p :: p in c.prerequisites ==> IsSolved(solves, team, p)
  {
    forall p ensures p in SolvedBy(solves, team) <==> IsSolved(solves, team, p) {
      if IsSolved(solves, team, p) {
        var i :| 0 <= i < |solves| && solves[i].team == team && solves[i].challenge == p;
        assert solves[i] in solves;
      }
    }
  }

  lemma {:induction false} StoredExactly(rows: seq<Submission>, team: Id, challenge: Id, key: string)
    ensures StoredUnder(rows, team, challenge, key).None? <==>
              forall i :: 0 <= i < |rows| ==> !IsStored(rows[i], team, challenge, key)
  {
    if rows != [] { StoredExactly(rows[..|rows| - 1], team, challenge, key); }
  }

  lemma RecordKeeps(db: Db, user: Id, team: Id, challenge: Challenge, a: Attempt)
    requires LogInv(db) && Admitted(db, user, team, a)
    ensures LogInv(Record(db, user, team, challenge, a).0)
  {
    hide Corresponds, RowsDistinct, WrongEarnsNothing, Capped, StoredUnder, Attempts, EventAttempts, IsCorrect,
         S.ChallengePoints, SolveCount;
    var db' := Record(db, user, team, challenge, a).0;
    var s := db'.log.submissions[|db.log.submissions|];
    AppendSubmission(db.log.submissions, db.next, s, db'.next);
    AppendCapped(db.log.submissions, s);
    if IsCorrect(challenge, a) {
      var n := |db.log.solves|;
      AppendMatched(db.log, s, db'.log.solves[n], db'.log.scores[|db.log.scores|]);
      forall i | 0 <= i < n ensures db.log.solves[i].team != team || db.log.solves[i].challenge != a.challenge {
      }
    } else {
      AppendWrong(db.log, s);
    }
  }

  /** The new row, and the answer that goes with it: what is read back from the rows. */
  lemma RecordAnswers(db: Db, user: Id, team: Id, challenge: Challenge, a: Attempt)
    ensures var (db', answer) := Record(db, user, team, challenge, a); var n := |db.log.submissions|;
            && |db'.log.submissions| == n + 1 && db.log.submissions <= db'.log.submissions
               && db.log.solves <= db'.log.solves
            && IsStored(db'.log.submissions[n], team, a.challenge, a.key)
            && answer == SubmissionResult(db'.log.solves, db'.log.submissions[n])
  {
    hide IsCorrect, S.ChallengePoints, SolveCount;
  }

  // ---------- the cascades find nothing ----------

  lemma {:induction false} NoSubmissionDrops(rows: seq<Submission>, team: Id)
    requires forall i :: 0 <= i < |rows| ==> rows[i].team != team
    ensures DropTeamSubmissions(rows, team) == rows
  {
    if rows != [] { NoSubmissionDrops(rows[..|rows| - 1], team); }
  }

  lemma {:induction false} NoSolveDrops(rows: seq<Solve>, team: Id)
    requires forall i :: 0 <= i < |rows| ==> rows[i].team != team
    ensures DropTeamSolves(rows, team) == rows
  {
    if rows != [] { NoSolveDrops(rows[..|rows| - 1], team); }
  }

  lemma {:induction false} NoScoreDrops(rows: seq<ScoreEvent>, team: Id)
    requires forall i :: 0 <= i < |rows| ==> rows[i].team != team
    ensures DropTeamScores(rows, team) == rows
  {
    if rows != [] { NoScoreDrops(rows[..|rows| - 1], team); }
  }

  lemma {:induction false} NoChallengeSolveDrops(rows: seq<Solve>, challenge: Id)
    requires forall i :: 0 <= i < |rows| ==> rows[i].challenge != challenge
    ensures DropChallengeSolves(rows, challenge) == rows
  {
    if rows != [] { NoChallengeSolveDrops(rows[..|rows| - 1], challenge); }
  }

  lemma {:induction false} NoChallengeScoreDrops(rows: seq<ScoreEvent>, challenge: Id)
    requires forall i :: 0 <= i < |rows| ==> rows[i].challenge != Some(challenge)
    ensures DropChallengeScores(rows, challenge) == rows
  {
    if rows != [] { NoChallengeScoreDrops(rows[..|rows| - 1], challenge); }
  }

  /** Where a solve and its score came from. */
  lemma SolveHasSubmission(log: Log, next: nat, k: nat)
    requires Corresponds(log) && RowsDistinct(log.submissions, next) && k < |log.solves|
    ensures exists i :: 0 <= i < |log.submissions| && log.submissions[i].correct
                        && Matched(log.submissions[i], log.solves[k], log.scores[k])
  {
    CorrectOnesFrom(log.submissions, next);
    CorrectOnesAreCorrect(log.submissions);
    assert Matched(CorrectOnes(log.submissions)[k], log.solves[k], log.scores[k]);
    var i :| 0 <= i < |log.submissions| && log.submissions[i] == CorrectOnes(log.submissions)[k];
  }

  /** Solves are of challenges that are there. */
  lemma SolvesAnchored(db: Db)
    requires LogInv(db)
    ensures forall k :: 0 <= k < |db.log.solves| ==> db.log.solves[k].challenge in db.challenges
  {
    hide Capped, SolvedOnce, WrongEarnsNothing;
    forall k | 0 <= k < |db.log.solves| ensures db.log.solves[k].challenge in db.challenges {
      SolveHasSubmission(db.log, db.next, k);
    }
  }

  lemma {:induction false} CorrectOnesAreCorrect(rows: seq<Submission>)
    ensures forall k :: 0 <= k < |CorrectOnes(rows)| ==> CorrectOnes(rows)[k].correct
  {
    if rows != [] { CorrectOnesAreCorrect(rows[..|rows| - 1]); }
  }

  /** A team that may be disbanded has left no trace in the log. */
  lemma DisbandingDropsNothing(log: Log, next: nat, team: Id)
    requires Corresponds(log) && RowsDistinct(log.submissions, next) && !TeamSubmitted(log.submissions, team)
    ensures DropTeam(log, team) == log
  {
    forall k | 0 <= k < |log.solves| ensures log.solves[k].team != team && log.scores[k].team != team {
      SolveHasSubmission(log, next, k);
    }
    NoSubmissionDrops(log.submissions, team);
    NoSolveDrops(log.solves, team);
    NoScoreDrops(log.scores, team);
  }

  /** Nor has a challenge that may be deleted. */
  lemma DeletingDropsNothing(log: Log, next: nat, id: Id)
    requires Corresponds(log) && RowsDistinct(log.submissions, next) && !ChallengeSubmitted(log.submissions, id)
    ensures DropChallengeSolves(log.solves, id) == log.solves && DropChallengeScores(log.scores, id) == log.scores
  {
    forall k | 0 <= k < |log.solves| ensures log.solves[k].challenge != id && log.scores[k].challenge != Some(id) {
      SolveHasSubmission(log, next, k);
    }
    NoChallengeSolveDrops(log.solves, id);
    NoChallengeScoreDrops(log.scores, id);
  }

  // ---------- every handler keeps it ----------

  /** The log is as before, and nothing it refers to has gone. */
  lemma SameLogKeeps(db: Db, db': Db)
    requires LogInv(db) && db'.log == db.log && db.next <= db'.next
    requires Anchored(db.log.submissions, db'.roster.members, db'.roster.teams, db'.challenges)
    ensures LogInv(db')
  {
    hide Corresponds, WrongEarnsNothing, SolvedOnce, Capped, Anchored;
  }

  lemma SubmitKeeps(db: Db, c: Command)
    requires LogInv(db) && c.DoSubmit?
    ensures LogInv(Handle(db, c).0)
  {
    hide LogInv, Record, Rule, Admitted;
    var ruling := Rule(db, c.r, c.attempt);
    if ruling.Accept? {
      AcceptIsAdmitted(db, c.r, c.attempt);
      RecordKeeps(db, ruling.user, ruling.team, ruling.challenge, c.attempt);
    }
  }

  lemma TeamChangeKeeps(db: Db, c: Command)
    requires LogInv(db) && OnTeams(c) && !c.DoLeaveTeam?
    ensures LogInv(Handle(db, c).0) && Handle(db, c).0.log == db.log
  {
    hide Corresponds, WrongEarnsNothing, RowsDistinct, SolvedOnce, Capped, HandleTeams, Anchored;
    HandleWrites(db, c);
    TeamChangeAnchors(db, c);
    SameLogKeeps(db, Handle(db, c).0);
  }

  lemma TeamChangeAnchors(db: Db, c: Command)
    requires Anchored(db.log.submissions, db.roster.members, db.roster.teams, db.challenges) && OnTeams(c)
             && !c.DoLeaveTeam?
    ensures var db' := HandleTeams(db, c).0;
            Anchored(db.log.submissions, db'.roster.members, db'.roster.teams, db.challenges)
  {
    hide Enter, NameTaken, MembersOf, TeamWithInvite;
  }

  lemma LeaveTeamKeepsLog(db: Db, c: Command)
    requires LogInv(db) && c.DoLeaveTeam?
    ensures LogInv(Handle(db, c).0) && Handle(db, c).0.log == db.log
  {
    hide Corresponds, WrongEarnsNothing, RowsDistinct, SolvedOnce, Capped, Enter, MembersOf, DropTeam;
    var db' := Handle(db, c).0;
    if db' != db {
      var user := Enter(db, c.r).value;
      var m := db.roster.members[user];
      if m.role == Owner { DisbandingDropsNothing(db.log, db.next, m.team); }
      assert Anchored(db.log.submissions, db'.roster.members, db'.roster.teams, db'.challenges);
      SameLogKeeps(db, db');
    }
  }

  lemma RegisterFinishKeepsLog(db: Db, c: Command)
    requires LogInv(db) && TeamInv(db) && c.DoRegisterFinish?
    ensures LogInv(Handle(db, c).0) && Handle(db, c).0.log == db.log
  {
    hide Corresponds, WrongEarnsNothing, RowsDistinct, SolvedOnce, Capped, MayRegister, NameTaken, AddSession, UseCode,
         TeamShape, AccountKeys, MutationsCapped;
    var db' := Handle(db, c).0;
    HandleWrites(db, c);
    assert Anchored(db.log.submissions, db'.roster.members, db'.roster.teams, db'.challenges);
    SameLogKeeps(db, db');
  }

  lemma DeleteChallengeKeepsLog(db: Db, c: Command)
    requires LogInv(db) && c.DoDeleteChallenge?
    ensures LogInv(Handle(db, c).0) && Handle(db, c).0.log == db.log
  {
    hide Corresponds, WrongEarnsNothing, RowsDistinct, SolvedOnce, Capped, DropChallengeSolves, DropChallengeScores;
    var db' := Handle(db, c).0;
    if db' != db {
      DeletingDropsNothing(db.log, db.next, c.id);
      assert Anchored(db.log.submissions, db'.roster.members, db'.roster.teams, db'.challenges);
      SameLogKeeps(db, db');
    }
  }

  lemma ChallengeEditKeepsLog(db: Db, c: Command)
    requires LogInv(db) && (c.DoCreateChallenge? || c.DoUpdateChallenge? || c.DoSetVisibility?)
    ensures LogInv(Handle(db, c).0) && Handle(db, c).0.log == db.log
  {
    hide Corresponds, WrongEarnsNothing, RowsDistinct, SolvedOnce, Capped, CreateRefusal, UpdateRefusal,
         PatchedChallenge, NewScoring;
    var db' := Handle(db, c).0;
    HandleWrites(db, c);
    assert Anchored(db.log.submissions, db'.roster.members, db'.roster.teams, db'.challenges);
    SameLogKeeps(db, db');
  }

  /** Apart from accepted submissions nothing ever changes the log. */
  lemma HandleKeepsLog(db: Db, c: Command)
    requires LogInv(db) && TeamInv(db)
    ensures LogInv(Handle(db, c).0) && (!c.DoSubmit? ==> Handle(db, c).0.log == db.log)
  {
    hide TeamInv, LogInv, Handle;
    if c.DoSubmit? {
      SubmitKeeps(db, c);
    } else if c.DoLeaveTeam? {
      LeaveTeamKeepsLog(db, c);
    } else if c.DoRegisterFinish? {
      RegisterFinishKeepsLog(db, c);
    } else if c.DoDeleteChallenge? {
      DeleteChallengeKeepsLog(db, c);
    } else if c.DoCreateChallenge? || c.DoUpdateChallenge? || c.DoSetVisibility? {
      ChallengeEditKeepsLog(db, c);
    } else if OnTeams(c) {
      TeamChangeKeeps(db, c);
    } else {
      HandleWrites(db, c);
      LogInvFrame(db, Handle(db, c).0);
    }
  }

  lemma LogInvFrame(db: Db, db': Db)
    requires LogInv(db) && db'.log == db.log && db'.roster == db.roster && db'.challenges == db.challenges
             && db.next <= db'.next
    ensures LogInv(db')
  {
    hide Corresponds, WrongEarnsNothing, SolvedOnce, Capped, Anchored;
  }

  lemma StepKeepsLog(db: Db, c: Command)
    requires LogInv(db) && TeamInv(db)
    ensures LogInv(Step(db, c)) && TeamInv(Step(db, c))
    ensures !c.DoSubmit? ==> Step(db, c).log == db.log
  {
    hide TeamInv, LogInv, Handle, Step;
    StepKeepsTeams(db, c);
    HandleKeepsLog(db, c);
    StepCloses(db, c);
    LogInvFrame(Handle(db, c).0, Step(db, c));
  }

  lemma {:induction false} RunKeepsLog(db: Db, commands: seq<Command>)
    requires LogInv(db) && TeamInv(db)
    ensures LogInv(Run(db, commands)) && TeamInv(Run(db, commands))
  {
    hide TeamInv, LogInv, Step;
    if commands != [] {
      RunKeepsLog(db, commands[..|commands| - 1]);
      StepKeepsLog(Run(db, commands[..|commands| - 1]), commands[|commands| - 1]);
    }
  }

  lemma BootstrappedLog(db: Db)
    requires Bootstrapped(db)
    ensures LogInv(db) && TeamInv(db)
  {
    BootstrappedTeams(db);
  }

  /** Over all runs: correct submissions, solves and score events correspond one to one with equal
      points, a team solves a challenge once, and the storage caps hold. */
  lemma SubmissionsAlwaysConsistent(db: Db, commands: seq<Command>)
    requires Bootstrapped(db)
    ensures LogInv(Run(db, commands))
  {
    hide LogInv, Run;
    BootstrappedLog(db);
    RunKeepsLog(db, commands);
  }

  // ---------- replays ----------

  /** No step removes or rewrites a submission; an accepted one is appended and answered with what is read back. */
  lemma StepAppends(db: Db, c: Command)
    requires LogInv(db) && TeamInv(db)
    ensures var rows, rows' := db.log.submissions, Step(db, c).log.submissions;
            && db.log.solves <= Step(db, c).log.solves
            && (|| rows' == rows
                || (|rows'| == |rows| + 1 && rows <= rows' && c.DoSubmit? && rows'[|rows|].key == c.attempt.key
                    && Handle(db, c).1 == SubmissionResult(Step(db, c).log.solves, rows'[|rows|])))
  {
    hide TeamInv, LogInv, Step, Rule, Record, SubmissionResult;
    StepCloses(db, c);
    if c.DoSubmit? {
      var ruling := Rule(db, c.r, c.attempt);
      if ruling.Accept? {
        RecordAnswers(db, ruling.user, ruling.team, ruling.challenge, c.attempt);
      }
    } else {
      hide Handle;
      StepKeepsLog(db, c);
    }
  }

  lemma {:induction false} RunAppends(db: Db, commands: seq<Command>)
    requires LogInv(db) && TeamInv(db)
    ensures db.log.submissions <= Run(db, commands).log.submissions && db.log.solves <= Run(db, commands).log.solves
    ensures db.next <= Run(db, commands).next
  {
    hide TeamInv, LogInv, Step, Handle;
    if commands != [] {
      var before := commands[..|commands| - 1];
      RunAppends(db, before);
      RunKeepsLog(db, before);
      StepAppends(Run(db, before), commands[|commands| - 1]);
      HandleWrites(Run(db, before), commands[|commands| - 1]);
      StepCloses(Run(db, before), commands[|commands| - 1]);
    }
  }

  /** Replaying a stored key of the caller's team, at any later time and with any flag, changes nothing and answers
      what the stored submission was answered, or is refused, exactly when submissions are closed or the flag is too
      long. */
  lemma ReplayIsHarmless(db: Db, later: seq<Command>, i: nat, r: nat, a: Attempt)
    requires LogInv(db) && TeamInv(db) && i < |db.log.submissions|
    requires var s := db.log.submissions[i]; var end := Run(db, later);
             && a.challenge == s.challenge && a.key == s.key
             && r in end.flights && end.flights[r].Authenticated?
             && end.flights[r].user in end.roster.members && end.roster.members[end.flights[r].user].team == s.team
    ensures var end := Run(db, later); var (end', answer) := SubmitFlag(end, r, a);
            && end' == end
            && (answer.Refused? || answer == SubmissionResult(db.log.solves, db.log.submissions[i]))
            && (answer.Refused? <==> !AllowsSubmission(end.event, a.gateAt) || |a.flag| > end.config.maxFlagLength)
  {
    hide Corresponds, WrongEarnsNothing, RowsDistinct, SolvedOnce, Capped, Anchored, TeamInv, Run, StoredUnder,
         AllowsSubmission;
    var end := Run(db, later);
    var s := db.log.submissions[i];
    RunAppends(db, later);
    RunKeepsLog(db, later);
    assert end.log.submissions[i] == s;
    StoredIsFound(end.log.submissions, end.next, i);
    DistinctStays(db.log.submissions, db.next, end.next);
    ResultIsStable(db.log, end.log, end.next, i);
  }

  lemma DistinctStays(rows: seq<Submission>, next: nat, later: nat)
    requires RowsDistinct(rows, next) && next <= later
    ensures RowsDistinct(rows, later)
  {
  }
}
