/** The interleaved submissions of SubmissionProtocol against the single transaction of SubmitRoute and the lock
    sequences of LockOrder. */
module SubmissionRefinement {
  import opened Basics
  import opened Schema
  import opened Services
  import opened Database
  import opened SubmitRoute
  import opened SubmissionInvariants
  import P = SubmissionProtocol
  import L = LockOrder
  import S = Scoring

  // ---------- one log, two forms ----------

  predicate SameRow(row: P.Row, s: Submission) {
    s.team == row.team && s.challenge == row.challenge && s.key == row.key && s.correct == row.correct
      && s.awarded == row.points
  }

  predicate SameRows(rows: seq<P.Row>, submissions: seq<Submission>) {
    |rows| == |submissions| && forall i :: 0 <= i < |rows| ==> SameRow(rows[i], submissions[i])
  }

  predicate SameTerms(terms: map<Id, P.Terms>, challenges: map<Id, Challenge>) {
    && terms.Keys == challenges.Keys
    && forall c :: c in terms ==> terms[c] == P.Terms(challenges[c].scoring, challenges[c].maxAttempts)
  }

  ghost predicate Mirrors(s: P.State, db: Db) {
    SameRows(s.rows, db.log.submissions) && SameTerms(s.challenges, db.challenges) && LogInv(db)
  }

  lemma {:induction false} SameAttempts(rows: seq<P.Row>, submissions: seq<Submission>, team: Id, challenge: Id)
    requires SameRows(rows, submissions)
    ensures P.Attempts(rows, team, challenge) == Attempts(submissions, team, challenge)
    ensures P.EventAttempts(rows, team) == EventAttempts(submissions, team)
  {
    if rows != [] {
      var n := |rows| - 1;
      SameAttempts(rows[..n], submissions[..n], team, challenge);
      assert SameRow(rows[n], submissions[n]);
    }
  }

  lemma SameStored(rows: seq<P.Row>, submissions: seq<Submission>, team: Id, challenge: Id, key: string)
    requires SameRows(rows, submissions)
    ensures P.Stored(rows, team, challenge, key)
            <==> exists i :: 0 <= i < |submissions| && IsStored(submissions[i], team, challenge, key)
  {
    if i :| 0 <= i < |submissions| && IsStored(submissions[i], team, challenge, key) {
      assert SameRow(rows[i], submissions[i]);
    }
    if i :| 0 <= i < |rows| && P.IsAttempt(rows[i], team, challenge) && rows[i].key == key {
      assert SameRow(rows[i], submissions[i]) && IsStored(submissions[i], team, challenge, key);
    }
  }

  /** How many of these submissions are of the challenge. */
  function Among(rows: seq<Submission>, challenge: Id): nat {
    if rows == [] then 0
    else Among(rows[..|rows| - 1], challenge) + (if rows[|rows| - 1].challenge == challenge then 1 else 0)
  }

  lemma {:induction false} SolvesAreCorrectOnes(rows: seq<P.Row>, submissions: seq<Submission>, challenge: Id)
    requires SameRows(rows, submissions)
    ensures P.Solves(rows, challenge) == Among(CorrectOnes(submissions), challenge)
  {
    if rows != [] {
      var n := |rows| - 1;
      SolvesAreCorrectOnes(rows[..n], submissions[..n], challenge);
      assert SameRow(rows[n], submissions[n]);
      assert submissions == submissions[..n] + [submissions[n]];
      AppendCorrectOnes(submissions[..n], submissions[n]);
      AmongMore(CorrectOnes(submissions[..n]), submissions[n], challenge);
      hide CorrectOnes, Among, SameRows;
      assert CorrectOnes(submissions[..n]) + [] == CorrectOnes(submissions[..n]);
    }
  }

  lemma AmongMore(rows: seq<Submission>, s: Submission, challenge: Id)
    ensures Among(rows + [s], challenge) == Among(rows, challenge) + (if s.challenge == challenge then 1 else 0)
  {
    assert (rows + [s])[..|rows|] == rows;
  }

  lemma {:induction false} AmongIsCount(rows: seq<Submission>, solves: seq<Solve>, challenge: Id)
    requires |rows| == |solves| && forall i :: 0 <= i < |rows| ==> solves[i].challenge == rows[i].challenge
    ensures Among(rows, challenge) == SolveCount(solves, challenge)
  {
    if rows != [] {
      var n := |rows| - 1;
      AmongIsCount(rows[..n], solves[..n], challenge);
    }
  }

  lemma SameSolves(rows: seq<P.Row>, log: Log, next: nat, team: Id, challenge: Id)
    requires SameRows(rows, log.submissions) && Corresponds(log) && RowsDistinct(log.submissions, next)
    ensures P.Solves(rows, challenge) == SolveCount(log.solves, challenge)
    ensures P.Solved(rows, team, challenge) <==> IsSolved(log.solves, team, challenge)
  {
    SolvesAreCorrectOnes(rows, log.submissions, challenge);
    forall i | 0 <= i < |log.solves| ensures log.solves[i].challenge == CorrectOnes(log.submissions)[i].challenge {
      assert Matched(CorrectOnes(log.submissions)[i], log.solves[i], log.scores[i]);
    }
    AmongIsCount(CorrectOnes(log.submissions), log.solves, challenge);
    if i :| 0 <= i < |rows| && P.IsAttempt(rows[i], team, challenge) && rows[i].correct {
      assert SameRow(rows[i], log.submissions[i]);
      var k := CorrectIsListed(log.submissions, i);
      assert Matched(log.submissions[i], log.solves[k], log.scores[k]);
    }
    if k :| 0 <= k < |log.solves| && log.solves[k].team == team && log.solves[k].challenge == challenge {
      SolveHasSubmission(log, next, k);
      var i :| 0 <= i < |log.submissions| && log.submissions[i].correct
               && Matched(log.submissions[i], log.solves[k], log.scores[k]);
      assert SameRow(rows[i], log.submissions[i]);
    }
  }

  // ---------- a commit of the protocol is the transaction ----------

  /** The gates that the protocol leaves out are open for this request, which is for the transaction's key, and the
      flag was found right exactly by a transaction that counts its solve. */
  predicate SameRequest(x: P.Txn, db: Db, r: nat, a: Attempt) {
    && r in db.flights && db.flights[r].Authenticated? && StillSignedIn(db, db.flights[r]) && a.rate
    && AllowsSubmission(db.event, a.gateAt) && AllowsSubmission(db.event, db.now) && |a.flag| <= db.config.maxFlagLength
    && db.flights[r].user in db.roster.members && db.roster.members[db.flights[r].user].team == x.team
    && x.team in db.roster.teams
    && a.challenge == x.challenge && a.key == x.key && x.challenge in db.challenges
    && IsAccessible(db.challenges[x.challenge], SolvedBy(db.log.solves, x.team), a.accessAt)
    && (IsCorrect(db.challenges[x.challenge], a) <==> x.pc.Counted?)
  }

  /** What the protocol has established about a transaction about to commit is what the transaction checks. */
  lemma CommitIsAccepted(steps: seq<P.Step>, t: P.TxnId, db: Db, r: nat, a: Attempt)
    requires var s := P.Run(steps);
             && t in s.txns && Mirrors(s, db) && SameRequest(s.txns[t], db, r, a)
             && (s.txns[t].pc == P.Inserted(false) || s.txns[t].pc.Counted?)
    ensures var x := P.Run(steps).txns[t];
            Rule(db, r, a) == Accept(db.flights[r].user, x.team, db.challenges[x.challenge])
  {
    var s := P.Run(steps);
    var x := s.txns[t];
    P.RunKeepsInv(steps);
    assert P.Facts(s, x);
    SameAttempts(s.rows, db.log.submissions, x.team, x.challenge);
    SameStored(s.rows, db.log.submissions, x.team, x.challenge, x.key);
    SameSolves(s.rows, db.log, db.next, x.team, x.challenge);
    hide P.Run, P.Inv, P.Facts, P.Stored, P.Solved, P.Attempts, P.EventAttempts, P.Solves, Corresponds, RowsDistinct,
         Capped, SolvedOnce, Anchored, WrongEarnsNothing, Attempts, EventAttempts, IsSolved, IsStored,
         AllowsSubmission, StillSignedIn, IsCorrect, SameRows;
    CommitFacts(s, x);
    AccessibleExactly(db.challenges[x.challenge], db.log.solves, x.team, a.accessAt);
    AcceptedExactly(db, r, a);
    hide IsAccessible;
    AcceptIsAdmitted(db, r, a);
  }

  lemma CommitFacts(s: P.State, x: P.Txn)
    requires P.Facts(s, x) && (x.pc == P.Inserted(false) || x.pc.Counted?)
    ensures !P.Stored(s.rows, x.team, x.challenge, x.key) && !P.Solved(s.rows, x.team, x.challenge)
    ensures x.challenge in s.challenges && P.Attempts(s.rows, x.team, x.challenge) < s.challenges[x.challenge].Limit()
    ensures P.EventAttempts(s.rows, x.team) < P.MAX_SUBMISSIONS_PER_TEAM_EVENT
    ensures x.pc.Counted? ==>
              x.locked == Some(s.challenges[x.challenge].scoring) && x.pc.count == P.Solves(s.rows, x.challenge) + 1
  {
  }

  /** A transaction of the interleaved protocol, at its commit, appends exactly the row, with exactly the points, that
      submit_flag as one transaction appends in the state of that commit. */
  lemma CommitIsSubmitFlag(steps: seq<P.Step>, t: P.TxnId, db: Db, r: nat, a: Attempt)
    requires var s := P.Run(steps);
             && t in s.txns && Mirrors(s, db) && SameRequest(s.txns[t], db, r, a)
             && (s.txns[t].pc == P.Inserted(false) || s.txns[t].pc.Counted?)
    ensures var s := P.Run(steps);
            && |P.Apply(s, P.Commit(t)).rows| == |s.rows| + 1
            && Mirrors(P.Apply(s, P.Commit(t)), SubmitFlag(db, r, a).0)
  {
    var s := P.Run(steps);
    var x := s.txns[t];
    P.RunKeepsInv(steps);
    CommitIsAccepted(steps, t, db, r, a);
    AcceptIsAdmitted(db, r, a);
    RecordKeeps(db, db.flights[r].user, x.team, db.challenges[x.challenge], a);
    SameSolves(s.rows, db.log, db.next, x.team, x.challenge);
    assert P.Facts(s, x);
    CommitFacts(s, x);
    hide P.Run, P.Inv, P.Facts, P.Stored, P.Solved, P.Attempts, P.EventAttempts, P.Solves, LogInv, Rule, IsCorrect,
         SolveCount, Admitted, S.ChallengePoints, AllowsSubmission, StillSignedIn, IsAccessible;
    CommittedRows(s, t, db, r, a);
  }

  lemma CommittedRows(s: P.State, t: P.TxnId, db: Db, r: nat, a: Attempt)
    requires t in s.txns && SameRows(s.rows, db.log.submissions) && SameTerms(s.challenges, db.challenges)
    requires var x := s.txns[t];
             && (x.pc == P.Inserted(false) || x.pc.Counted?) && x.challenge in s.challenges
             && (x.pc.Counted? ==>
                   && x.locked == Some(s.challenges[x.challenge].scoring)
                   && x.pc.count == SolveCount(db.log.solves, x.challenge) + 1)
             && SameRequest(x, db, r, a)
             && Rule(db, r, a) == Accept(db.flights[r].user, x.team, db.challenges[x.challenge])
    ensures var s' := P.Apply(s, P.Commit(t)); var db' := SubmitFlag(db, r, a).0;
            && |s'.rows| == |s.rows| + 1
            && SameRows(s'.rows, db'.log.submissions) && SameTerms(s'.challenges, db'.challenges)
  {
    hide Rule, IsCorrect, SolveCount, S.ChallengePoints, AllowsSubmission, StillSignedIn, IsAccessible;
  }

  // ---------- a whole run is a sequence of such transactions ----------

  /** This step commits a submission. */
  predicate Commits(s: P.State, step: P.Step) {
    step.Commit? && step.t in s.txns && (s.txns[step.t].pc == P.Inserted(false) || s.txns[step.t].pc.Counted?)
  }

  /** A request and what it carries. */
  datatype Call = Call(r: nat, attempt: Attempt)

  /** While the protocol takes this step the database takes one submit_flag if the step is a commit, and otherwise
      anything that leaves the log alone and what the protocol knows of the challenges in agreement. */
  ghost predicate SerialStep(s: P.State, step: P.Step, db: Db, db': Db, call: Call) {
    if Commits(s, step) then
      SameRequest(s.txns[step.t], db, call.r, call.attempt) && db' == SubmitFlag(db, call.r, call.attempt).0
    else
      db'.log == db.log && LogInv(db') && SameTerms(P.Apply(s, step).challenges, db'.challenges)
  }

  ghost predicate SerialRun(steps: seq<P.Step>, dbs: seq<Db>, calls: seq<Call>) {
    && |dbs| == |steps| + 1 && |calls| == |steps|
    && dbs[0].log == Log([], [], []) && Mirrors(P.Run([]), dbs[0])
    && forall k :: 0 <= k < |steps| ==> SerialStep(P.Run(steps[..k]), steps[k], dbs[k], dbs[k + 1], calls[k])
  }

  lemma RowsStand(s: P.State, step: P.Step)
    requires !Commits(s, step) && P.Inv(s)
    ensures P.Apply(s, step).rows == s.rows
  {
    hide P.TeamFree, P.ChallengeFree, P.Stored, P.Solved, P.Attempts, P.EventAttempts, P.Solves, P.Collides, P.Facts,
         P.CommittedRow, P.RowsOk;
  }

  lemma SerialPrefix(steps: seq<P.Step>, dbs: seq<Db>, calls: seq<Call>, n: nat)
    requires SerialRun(steps, dbs, calls) && n <= |steps|
    ensures SerialRun(steps[..n], dbs[..n + 1], calls[..n])
  {
    hide SerialStep, Mirrors;
    forall k | 0 <= k < n
      ensures SerialStep(P.Run(steps[..n][..k]), steps[..n][k], dbs[..n + 1][k], dbs[..n + 1][k + 1], calls[..n][k])
    {
      assert steps[..n][..k] == steps[..k];
    }
  }

  /** However the statements of the submissions interleave, the run ends in the rows of submit_flag taken whole, one
      transaction for each commit, in the order of the commits; between them other handlers may run. */
  lemma {:induction false} RunIsSerial(steps: seq<P.Step>, dbs: seq<Db>, calls: seq<Call>)
    requires SerialRun(steps, dbs, calls)
    ensures Mirrors(P.Run(steps), dbs[|steps|])
    decreases |steps|
  {
    hide Mirrors, SameRequest, SubmitFlag, P.Inv, P.Apply;
    if steps == [] {
      assert steps[..0] == [];
    } else {
      var n := |steps| - 1;
      SerialPrefix(steps, dbs, calls, n);
      RunIsSerial(steps[..n], dbs[..n + 1], calls[..n]);
      var s := P.Run(steps[..n]);
      P.RunKeepsInv(steps[..n]);
      assert SerialStep(s, steps[n], dbs[n], dbs[n + 1], calls[n]);
      if Commits(s, steps[n]) {
        CommitIsSubmitFlag(steps[..n], steps[n].t, dbs[n], calls[n].r, calls[n].attempt);
      } else {
        RowsStand(s, steps[n]);
        StandingMirrors(s, P.Apply(s, steps[n]), dbs[n], dbs[n + 1]);
      }
    }
  }

  lemma StandingMirrors(s: P.State, s': P.State, db: Db, db': Db)
    requires Mirrors(s, db) && s'.rows == s.rows && db'.log == db.log && LogInv(db')
             && SameTerms(s'.challenges, db'.challenges)
    ensures Mirrors(s', db')
  {
    hide LogInv, SameRow, SameTerms;
  }

  // ---------- and every run of the protocol has such a sequence ----------

  /** In this database every gate that the protocol leaves out is open for one member of each of the teams. */
  predicate WideOpen(db: Db, teams: set<Id>) {
    && db.event == Event(Live, None, None, None, None, Teams, Open) && db.now == 0.0
    && (forall u :: u in teams ==>
          && u in db.flights && db.flights[u] == Authenticated(u, 0, u)
          && u in db.accounts.users && db.accounts.users[u].active && db.accounts.users[u].version == 0
          && u in db.accounts.sessions && db.accounts.sessions[u] == Session(u, 0, 0.0, 1.0)
          && u in db.roster.members && db.roster.members[u].team == u && u in db.roster.teams)
    && (forall c :: c in db.challenges ==>
          db.challenges[c] == Plain(db.challenges[c].scoring, db.challenges[c].maxAttempts))
  }

  /** Visible to everybody, with a flag that is matched as the request says. */
  function Plain(scoring: S.Parameters, maxAttempts: nat): Challenge {
    Challenge("", scoring, true, None, maxAttempts, Regex(""), [])
  }

  function CallOf(x: P.Txn): Call {
    Call(x.team, Attempt(x.challenge, x.key, "", true, 0.0, 0.0, 0.0, 0.0, 0.0, x.pc.Counted?, x.pc.Counted?))
  }

  ghost predicate OnTeams(s: P.State, teams: set<Id>) {
    forall t :: t in s.txns ==> s.txns[t].team in teams
  }

  /** The teams that submit in a run. */
  function TeamsOf(steps: seq<P.Step>): set<Id> {
    set i | 0 <= i < |steps| && steps[i].Begin? :: steps[i].team
  }

  lemma OpenRequest(x: P.Txn, db: Db, teams: set<Id>)
    requires WideOpen(db, teams) && x.team in teams && x.challenge in db.challenges
    ensures SameRequest(x, db, CallOf(x).r, CallOf(x).attempt)
  {
  }

  lemma OpenStays(db: Db, teams: set<Id>, r: nat, a: Attempt)
    requires WideOpen(db, teams)
    ensures WideOpen(SubmitFlag(db, r, a).0, teams)
  {
    hide Rule, IsCorrect, SolveCount, S.ChallengePoints;
  }

  lemma TeamsStay(s: P.State, step: P.Step, teams: set<Id>)
    requires OnTeams(s, teams) && (step.Begin? ==> step.team in teams)
    ensures OnTeams(P.Apply(s, step), teams)
  {
    hide P.TeamFree, P.ChallengeFree, P.Stored, P.Solved, P.Attempts, P.EventAttempts, P.Solves, P.Collides,
         P.CommittedRow;
  }

  /** The database after a step that is no commit. */
  function Followed(db: Db, after: map<Id, P.Terms>): Db
    requires forall c :: c in after ==> after[c].scoring.Valid()
  {
    db.(challenges := map c | c in after :: Plain(after[c].scoring, after[c].maxAttempts))
  }

  lemma FollowedIsOpen(s: P.State, db: Db, step: P.Step, teams: set<Id>)
    requires P.Inv(s) && P.Inv(P.Apply(s, step)) && Mirrors(s, db) && WideOpen(db, teams) && !Commits(s, step)
    ensures var db' := Followed(db, P.Apply(s, step).challenges);
            db'.log == db.log && LogInv(db') && SameTerms(P.Apply(s, step).challenges, db'.challenges)
              && WideOpen(db', teams)
  {
    KnownStays(s, step);
    hide P.Apply, LogInv, P.Facts, P.LocksExclude, P.RowsOk;
    FollowedKeepsLog(s, db, P.Apply(s, step).challenges);
  }

  lemma FollowedKeepsLog(s: P.State, db: Db, after: map<Id, P.Terms>)
    requires Mirrors(s, db) && forall c :: c in after ==> after[c].scoring.Valid()
    requires forall i :: 0 <= i < |s.rows| && s.rows[i].challenge in s.challenges ==> s.rows[i].challenge in after
    ensures LogInv(Followed(db, after))
  {
    hide Corresponds, WrongEarnsNothing, RowsDistinct, SolvedOnce, Capped;
    forall i | 0 <= i < |db.log.submissions| ensures db.log.submissions[i].challenge in after {
      assert SameRow(s.rows[i], db.log.submissions[i]);
    }
    SameLogKeeps(db, Followed(db, after));
  }

  /** A challenge with a submission is not deleted. */
  lemma KnownStays(s: P.State, step: P.Step)
    ensures forall i :: 0 <= i < |s.rows| && s.rows[i].challenge in s.challenges ==>
              s.rows[i].challenge in P.Apply(s, step).challenges
  {
    hide P.TeamFree, P.ChallengeFree, P.Stored, P.Solved, P.Attempts, P.EventAttempts, P.Solves, P.Collides,
         P.CommittedRow;
  }

  function OpenAccount(u: Id): User {
    User(Name("", ""), Name("", ""), PasswordHash(0, ""), Participant, true, false, 0)
  }

  function Beginning(teams: set<Id>): Db {
    Db(0.0, 0, Config(0, 1.0), Event(Live, None, None, None, None, Teams, Open), 0.0, map[],
       Accounts(map u | u in teams :: OpenAccount(u), map u | u in teams :: Session(u, 0, 0.0, 1.0)),
       Registry(map[], []),
       Roster(map u | u in teams :: Team(Name("", ""), u, u), map u | u in teams :: Membership(u, Owner), []),
       Log([], [], []),
       map u | u in teams :: Authenticated(u, 0, u))
  }

  lemma {:induction false} SerialRunExists(steps: seq<P.Step>, teams: set<Id>) returns (dbs: seq<Db>, calls: seq<Call>)
    requires TeamsOf(steps) <= teams
    ensures SerialRun(steps, dbs, calls)
    ensures WideOpen(dbs[|steps|], teams) && OnTeams(P.Run(steps), teams)
    decreases |steps|
  {
    hide Mirrors, WideOpen, P.Inv, P.Apply, SubmitFlag, SameRequest;
    if steps == [] {
      dbs, calls := [Beginning(teams)], [];
      BeginningIsOpen(teams);
    } else {
      var n := |steps| - 1;
      var step := steps[n];
      forall t | t in TeamsOf(steps[..n]) ensures t in teams {
        var i :| 0 <= i < n && steps[..n][i].Begin? && steps[..n][i].team == t;
        assert steps[i].team in TeamsOf(steps);
      }
      var before, callsBefore := SerialRunExists(steps[..n], teams);
      RunIsSerial(steps[..n], before, callsBefore);
      var s, db := P.Run(steps[..n]), before[n];
      assert steps[n].Begin? ==> steps[n].team in TeamsOf(steps);
      TeamsStay(s, step, teams);
      var call, next := NextSerial(steps[..n], step, db, teams);
      dbs, calls := before + [next], callsBefore + [call];
      SerialMore(steps, before, callsBefore, next, call);
    }
  }

  /** No interleaving is anything but a sequence of submissions, whole, in the order of their commits. */
  lemma EveryRunIsSerial(steps: seq<P.Step>)
    ensures exists dbs, calls :: SerialRun(steps, dbs, calls) && Mirrors(P.Run(steps), dbs[|steps|])
  {
    hide SerialRun, Mirrors, P.Run;
    var dbs, calls := SerialRunExists(steps, TeamsOf(steps));
    RunIsSerial(steps, dbs, calls);
  }

  lemma SerialMore(steps: seq<P.Step>, dbs: seq<Db>, calls: seq<Call>, next: Db, call: Call)
    requires steps != [] && SerialRun(steps[..|steps| - 1], dbs, calls)
    requires var n := |steps| - 1; SerialStep(P.Run(steps[..n]), steps[n], dbs[n], next, call)
    ensures SerialRun(steps, dbs + [next], calls + [call])
  {
    hide SerialStep, Mirrors;
    var n := |steps| - 1;
    forall k | 0 <= k < |steps|
      ensures SerialStep(P.Run(steps[..k]), steps[k], (dbs + [next])[k], (dbs + [next])[k + 1], (calls + [call])[k])
    {
      if k < n { assert steps[..n][..k] == steps[..k] && steps[..n][k] == steps[k]; }
    }
  }

  lemma BeginningIsOpen(teams: set<Id>)
    ensures Mirrors(P.Run([]), Beginning(teams)) && WideOpen(Beginning(teams), teams) && OnTeams(P.Run([]), teams)
  {
  }

  /** One more step finds its transaction, or its change of challenges, in an open database. */
  lemma NextSerial(steps: seq<P.Step>, step: P.Step, db: Db, teams: set<Id>) returns (call: Call, next: Db)
    requires Mirrors(P.Run(steps), db) && WideOpen(db, teams) && OnTeams(P.Run(steps), teams)
    ensures SerialStep(P.Run(steps), step, db, next, call) && WideOpen(next, teams)
  {
    var s := P.Run(steps);
    P.RunKeepsInv(steps);
    hide P.Run;
    P.StepKeepsInv(s, step);
    if Commits(s, step) {
      var x := s.txns[step.t];
      call := CallOf(x);
      next := SubmitFlag(db, call.r, call.attempt).0;
      KnownChallenge(s, step.t, db);
      OpenRequest(x, db, teams);
      OpenStays(db, teams, call.r, call.attempt);
    } else {
      call := Call(0, CallOf(P.Txn(0, 0, "", P.Started, 0, None)).attempt);
      FollowedIsOpen(s, db, step, teams);
      next := Followed(db, P.Apply(s, step).challenges);
    }
  }

  lemma KnownChallenge(s: P.State, t: P.TxnId, db: Db)
    requires P.Inv(s) && Mirrors(s, db) && Commits(s, P.Commit(t))
    ensures s.txns[t].challenge in db.challenges
  {
    assert P.Facts(s, s.txns[t]);
    CommitFacts(s, s.txns[t]);
  }

  // ---------- and its locks are those of the script ----------

  /** The row locks a transaction of the protocol holds: the Event row from its beginning, its User, Membership and
      Team rows from LockTeam on, and its Challenge row once a flag has matched. */
  function Held(x: P.Txn, user: Id): seq<L.Lock> {
    if x.Rank() == 0 then L.Script(L.SubmitCorrect(user, x.team, x.challenge))[..1]
    else if x.locked.None? then L.Script(L.SubmitWrong(user, x.team))
    else L.Script(L.SubmitCorrect(user, x.team, x.challenge))
  }

  /** A step keeps a transaction's team and challenge, and never takes it back behind a lock. */
  lemma StepKeepsTaken(s: P.State, step: P.Step, t: P.TxnId)
    requires t in s.txns && t in P.Apply(s, step).txns && (s.txns[t].Rank() == 0 ==> s.txns[t].locked.None?)
    ensures var x, y := s.txns[t], P.Apply(s, step).txns[t];
            && y.team == x.team && y.challenge == x.challenge
            && (y.Rank() == 0 ==> x.Rank() == 0 && y.locked.None?)
            && (x.locked.Some? ==> y.locked.Some?)
  {
    hide P.Stored, P.Solved, P.Attempts, P.EventAttempts, P.Solves, P.CommittedRow, P.Collides, P.TeamFree,
         P.ChallengeFree;
  }

  /** Every step takes the locks in the script's order and gives none back before the end. */
  lemma LocksFollowScript(s: P.State, step: P.Step, t: P.TxnId, user: Id)
    requires t in s.txns && t in P.Apply(s, step).txns && (s.txns[t].Rank() == 0 ==> s.txns[t].locked.None?)
    ensures var x, y := s.txns[t], P.Apply(s, step).txns[t];
            && y.team == x.team && y.challenge == x.challenge
            && Held(x, user) <= Held(y, user) <= L.Script(L.SubmitCorrect(user, x.team, x.challenge))
            && (y.Rank() == 0 ==> y.locked.None?)
  {
    StepKeepsTaken(s, step, t);
    hide P.Apply;
  }

  predicate ConflictsWith(lock: L.Lock, held: seq<L.Lock>) {
    exists i :: 0 <= i < |held| && L.Conflict(lock, held[i])
  }

  /** A user has one membership, so transactions of one user are of one team. */
  ghost predicate OneTeamEach(s: P.State, user: P.TxnId -> Id) {
    && (forall t, u :: t in s.txns && u in s.txns && user(t) == user(u) ==> s.txns[t].team == s.txns[u].team)
    && (forall t :: t in s.txns && s.txns[t].Rank() == 0 ==> s.txns[t].locked.None?)
  }

  /** LockTeam goes ahead exactly when no other transaction holds a lock in conflict with the User, Membership or Team
      lock that the script asks for next. */
  lemma LockTeamWaits(s: P.State, t: P.TxnId, user: P.TxnId -> Id)
    requires t in s.txns && s.txns[t].pc == P.Started && OneTeamEach(s, user)
    ensures P.TeamFree(s, s.txns[t].team)
            <==> forall u, i :: u in s.txns && u != t && 1 <= i < 4 ==>
                   !ConflictsWith(L.Script(L.SubmitCorrect(user(t), s.txns[t].team, s.txns[t].challenge))[i],
                                  Held(s.txns[u], user(u)))
  {
    var x := s.txns[t];
    var script := L.Script(L.SubmitCorrect(user(t), x.team, x.challenge));
    if P.TeamFree(s, x.team) {
      forall u, i | u in s.txns && u != t && 1 <= i < 4 ensures !ConflictsWith(script[i], Held(s.txns[u], user(u))) {
        assert s.txns[u].team == x.team ==> s.txns[u].Rank() == 0;
      }
    } else {
      var u :| u in s.txns && s.txns[u].team == x.team && s.txns[u].Rank() != 0;
      assert L.Conflict(script[3], Held(s.txns[u], user(u))[3]);
      assert ConflictsWith(script[3], Held(s.txns[u], user(u)));
    }
  }

  /** A matched flag goes ahead exactly when no other transaction holds the Challenge lock the script ends with. */
  lemma LockChallengeWaits(s: P.State, t: P.TxnId, user: P.TxnId -> Id)
    requires t in s.txns && s.txns[t].pc == P.Admitted && s.txns[t].locked.None? && OneTeamEach(s, user)
    ensures P.ChallengeFree(s, s.txns[t].challenge)
            <==> forall u :: u in s.txns && u != t ==>
                   !ConflictsWith(L.Script(L.SubmitCorrect(user(t), s.txns[t].team, s.txns[t].challenge))[4],
                                  Held(s.txns[u], user(u)))
  {
    var x := s.txns[t];
    var script := L.Script(L.SubmitCorrect(user(t), x.team, x.challenge));
    if P.ChallengeFree(s, x.challenge) {
      forall u | u in s.txns && u != t ensures !ConflictsWith(script[4], Held(s.txns[u], user(u))) {
        assert s.txns[u].challenge == x.challenge ==> s.txns[u].locked.None?;
      }
    } else {
      var u :| u in s.txns && s.txns[u].challenge == x.challenge && s.txns[u].locked.Some?;
      assert L.Conflict(script[4], Held(s.txns[u], user(u))[4]);
      assert ConflictsWith(script[4], Held(s.txns[u], user(u)));
    }
  }
}
