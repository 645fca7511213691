/** A run from bootstrap that shows two of the findings: a participant registers and authenticates two requests. The
    first solves a challenge at 4 and commits at 9, after the freeze of 5; then the participant is suspended and the
    second request sends the same submission again. */
module ConcreteRun {
  import opened Basics
  import opened Schema
  import opened Services
  import opened Database
  import opened TeamRoutes
  import opened SubmitRoute
  import opened AuthRoutes
  import opened AdminRoutes
  import opened Contest
  import S = Scoring
  import K = Credentials
  import W = Soundness
  import F = FrozenBoard

  // ---------- the states of the run ----------

  const NONE := EventPatch(false, None, None, None, None, None, None, None)
  const PLAN := NONE.(state := Some(Registration), freezeAt := Some(Some(5.0)), mode := Some(Individual))
  const ANN := Name("ann", "ann")
  const TASK := Challenge("warmup", S.Scoring(S.Fixed, 100, 100, 1), true, None, 0, Exact("flag"), [])
  const ANSWER := Attempt(1, "key", "flag", true, 4.0, 4.0, 4.0, 4.0, 4.0, true, true)

  const START := Db(
    0.0, 10, Config(100, 100.0), Event(Draft, None, None, None, None, Teams, Open), 0.0, map[1 := TASK],
    Accounts(map[], map[]), Registry(map[], []), Roster(map[], map[], []), Log([], [], []), map[])

  const OPENED := START.(event := Event(Registration, None, None, Some(5.0), None, Individual, Open))

  const ASKED := OPENED.(next := 11, flights := map[10 := Registering(ANN, ANN, "password", None)])

  const MEMBER := User(ANN, ANN, PasswordHash(15, "password"), Participant, true, false, 0)

  /** User 11 with team 12, invite 13 and session 14. */
  const JOINED := OPENED.(
    next := 16,
    accounts := Accounts(map[11 := MEMBER], map[14 := Session(11, 0, 0.0, 100.0)]),
    registry := Registry(map[], [Admission(11, None)]),
    roster := Roster(map[12 := Team(SoloName(ANN, "1"), 13, 11)], map[11 := Membership(12, Owner)],
                     [Audit(11, SoloCreated)]))

  const LIVE := JOINED.(event := OPENED.event.(state := Live))

  const FIRST := LIVE.(next := 17, flights := map[16 := Authenticated(11, 0, 14)])

  const SECOND := LIVE.(
    next := 18, flights := map[16 := Authenticated(11, 0, 14), 17 := Authenticated(11, 0, 14)])

  const WAITED := SECOND.(now := 9.0)

  const SOLVED := LIVE.(
    now := 9.0, next := 21, flights := map[17 := Authenticated(11, 0, 14)],
    log := Log([Submission(18, 12, 1, 11, true, 100, "key", 4.0)], [Solve(19, 12, 1, 11, 18, 4.0)],
               [ScoreEvent(20, 12, Some(1), SolveScore(19), 100, true, 4.0)]))

  const SUSPENDED := SOLVED.(accounts := Accounts(map[11 := MEMBER.(active := false, version := 1)], map[]))

  function At(n: nat): Db
    requires n <= 9
  {
    match n
    case 0 => START
    case 1 => OPENED
    case 2 => ASKED
    case 3 => JOINED
    case 4 => LIVE
    case 5 => FIRST
    case 6 => SECOND
    case 7 => WAITED
    case 8 => SOLVED
    case _ => SUSPENDED
  }

  // ---------- its steps ----------

  function Move(n: nat): Command
    requires n < 9
  {
    match n
    case 0 => DoUpdateEvent(PLAN, 0.0)
    case 1 => DoRegisterBegin(ANN, ANN, "password", None, true)
    case 2 => DoRegisterFinish(10, "1")
    case 3 => DoUpdateEvent(NONE.(state := Some(Live)), 0.0)
    case 4 => DoAuthenticate(14, true)
    case 5 => DoAuthenticate(14, true)
    case 6 => Elapse(9.0)
    case 7 => DoSubmit(16, ANSWER)
    case _ => DoUpdateUserStatus(11, false)
  }

  ghost predicate Leads(n: nat)
    requires n < 9
  {
    Timely(At(n), Move(n)) && Step(At(n), Move(n)) == At(n + 1)
  }

  lemma Opens()
    ensures Leads(0)
  {
  }

  lemma Asks()
    ensures Leads(1)
  {
  }

  lemma Registers()
    ensures RegisterFinish(At(2), 10, "1") == (At(3).(flights := At(2).flights), SignedIn(14))
  {
    var db := RegisterFinish(At(2), 10, "1").0;
    assert db.accounts == At(3).accounts && db.registry == At(3).registry && db.roster == At(3).roster;
  }

  lemma Joins()
    ensures Leads(2)
  {
    Registers();
    hide Handle, HandleTeams, HandleBegin, HandleAccounts, HandleSetup, SubmitFlag, UpdateEvent, RegisterFinish,
         LoginAttempt, PasswordAttempt;
    HandleIs(At(2), Move(2));
  }

  lemma GoesLive()
    ensures Leads(3)
  {
  }

  lemma Authenticates()
    ensures Leads(4) && Leads(5)
  {
  }

  lemma Waits()
    ensures Leads(6)
  {
  }

  lemma Accepts()
    ensures Rule(At(7), 16, ANSWER) == Accept(11, 12, TASK)
  {
  }

  lemma Records()
    ensures Record(At(7), 11, 12, TASK, ANSWER)
            == (At(8).(flights := At(7).flights), Verdict(true, false, 100, Some(4.0)))
  {
    assert IsCorrect(TASK, ANSWER) && S.ChallengePoints(TASK.scoring, 1) == 100;
    var log := Record(At(7), 11, 12, TASK, ANSWER).0.log;
    assert log.submissions == At(8).log.submissions && log.solves == At(8).log.solves;
    assert log.scores == At(8).log.scores;
  }

  lemma Solves()
    ensures Leads(7)
  {
    Records();
    hide Record, Rule, HandleTeams, HandleBegin, HandleAccounts, HandleSetup, Handle, UpdateEvent;
    Accepts();
    HandleIs(At(7), Move(7));
  }

  lemma Suspends()
    ensures Leads(8)
  {
    hide Handle, HandleTeams, HandleBegin, HandleSetup, SubmitFlag, UpdateEvent, RegisterFinish, LoginAttempt,
         PasswordAttempt;
    HandleIs(At(8), Move(8));
  }

  lemma ReplayAnswered()
    ensures SubmitFlag(At(9), 17, ANSWER) == (At(9), Verdict(true, false, 100, Some(4.0)))
    ensures 17 in At(9).flights && K.DeadFlight(At(9), 17, 11, 0)
    ensures 11 in At(9).accounts.users && !At(9).accounts.users[11].active && At(9).accounts.sessions == map[]
  {
  }

  lemma StartIsBootstrapped()
    ensures Bootstrapped(At(0))
  {
  }

  // ---------- the run ----------

  function Moves(n: nat): seq<Command>
    requires n <= 9
  {
    if n == 0 then [] else Moves(n - 1) + [Move(n - 1)]
  }

  lemma {:induction false} MovesReach(n: nat)
    requires n <= 9
    ensures TimelyRun(At(0), Moves(n)) && Run(At(0), Moves(n)) == At(n)
  {
    hide At, Move, Step, Timely;
    if n > 0 {
      MovesReach(n - 1);
      AllLead(n - 1);
      RunMore(At(0), Moves(n - 1), Move(n - 1));
    }
  }

  lemma AllLead(k: nat)
    requires k < 9
    ensures Leads(k)
  {
    hide Leads;
    Opens();
    Asks();
    Joins();
    GoesLive();
    Authenticates();
    Waits();
    Solves();
    Suspends();
  }

  /** From bootstrap, in a timely run, a submission commits while the board is frozen and changes it. */
  lemma LateSolveHappens(ties: S.TieRule)
    ensures Bootstrapped(At(0)) && TimelyRun(At(0), Moves(7))
    ensures var db := Run(At(0), Moves(7));
            && BoardFrozen(db.event, db.now) && Timely(db, DoSubmit(16, ANSWER))
            && F.PublicEntries(SubmitFlag(db, 16, ANSWER).0, ties) != F.PublicEntries(db, ties)
  {
    MovesReach(7);
    StartIsBootstrapped();
    LateSolveScores();
    hide At, Moves, Run, Bootstrapped, TimelyRun, SubmitFlag, F.PublicEntries, F.EventInv, F.Scores, BoardFrozen;
    F.SubmissionKeepsBoardExactly(At(7), 16, ANSWER, ties);
  }

  lemma LateSolveScores()
    ensures F.EventInv(At(7)) && BoardFrozen(At(7).event, At(7).now) && At(7).event.freezeAt == Some(5.0)
    ensures Timely(At(7), DoSubmit(16, ANSWER)) && F.Scores(At(7), 16, ANSWER)
  {
    Accepts();
    hide Rule;
  }

  /** From bootstrap, in a timely run, request 17 of the suspended user 11 is told that its flag is right, with its
      points and instant, while nothing is written. */
  lemma RevokedReplayHappens()
    ensures Bootstrapped(At(0)) && TimelyRun(At(0), Moves(9))
    ensures var db := Run(At(0), Moves(9));
            && W.Sound(db) && 11 in db.accounts.users && !db.accounts.users[11].active && db.accounts.sessions == map[]
            && 17 in db.flights && K.DeadFlight(db, 17, 11, 0)
            && SubmitFlag(db, 17, ANSWER) == (db, Verdict(true, false, 100, Some(4.0)))
  {
    hide At, Move, Moves, Leads, Run, Bootstrapped, TimelyRun, SubmitFlag, K.DeadFlight, W.Sound;
    MovesReach(9);
    StartIsBootstrapped();
    ReplayAnswered();
    W.AlwaysSound(At(0), Moves(9));
  }
}
