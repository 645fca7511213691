/** The public board over all runs: a determined ranking, and what freezing it promises. */
module FrozenBoard {
  import opened Basics
  import opened Schema
  import opened Services
  import opened Database
  import opened TeamRoutes
  import opened SubmitRoute
  import opened AuthRoutes
  import opened AdminRoutes
  import opened Contest
  import opened WriteSets
  import opened TeamInvariants
  import opened SubmissionInvariants
  import C = ChallengeAccess
  import G = PrerequisiteGraph
  import S = Scoring
  import B = Scoreboard
  import L = TopList

  type Users = map<Id, User>

  const NOBODY := Name("개인 참가자", "개인 참가자")

  /** The name a team is listed under: its own, or in an individual event its creator's. */
  function ListedName(mode: TeamMode, team: Team, users: Users): Name {
    if mode == Teams then team.name
    else if team.creator in users then users[team.creator].username
    else NOBODY
  }

  /** The rows public_scoreboard ranks. */
  function Entries(totals: seq<B.Contribution>, teams: map<Id, Team>, users: Users, mode: TeamMode): set<B.Entry> {
    set i | 0 <= i < |totals| && totals[i].team in teams ::
      B.Entry(totals[i].team, ListedName(mode, teams[totals[i].team], users), totals[i].total)
  }

  function Totals(db: Db, cutoff: Option<Time>, ties: S.TieRule): seq<B.Contribution> {
    B.TeamTotals(db.log.solves, db.log.scores, db.challenges, cutoff, ties)
  }

  function PublicEntries(db: Db, ties: S.TieRule): set<B.Entry> {
    Entries(Totals(db, Cutoff(db.event, db.now), ties), db.roster.teams, db.accounts.users, db.event.mode)
  }

  // ---------- the event row over all runs ----------

  /** Freezing has an instant, and it has come; times are in order; personal teams have different creators. */
  ghost predicate EventInv(db: Db) {
    && db.edited <= db.now && TimesOk(db.event)
    && (db.event.state == Frozen ==> db.event.freezeAt.Some? && db.event.freezeAt.value <= db.edited)
    && (db.event.mode == Individual ==> CreatorsDistinct(db.roster.teams))
  }

  ghost predicate CreatorsDistinct(teams: map<Id, Team>) {
    forall t, s :: t in teams && s in teams && t != s ==> teams[t].creator != teams[s].creator
  }

  lemma NoTeamsWithoutMembers(teams: map<Id, Team>)
    requires TeamShape(teams, map[])
    ensures teams == map[]
  {
    forall t: Id ensures t !in teams {
      EmptyTeam(t);
    }
  }

  lemma EmptyTeam(t: Id)
    ensures |MembersOf(map[], t)| == 0
  {
    assert MembersOf(map[], t) == {};
  }

  lemma UpdateEventKeepsEvent(db: Db, p: EventPatch, checked: Time)
    requires EventInv(db) && TeamInv(db) && db.edited <= checked <= db.now
    ensures EventInv(UpdateEvent(db, p, checked).0)
  {
    hide TeamShape, TeamKeys, AccountKeys, MutationsCapped, TimesOk;
    if EventRefusal(db, p, checked).None? && p.mode.Some? && p.mode.value != db.event.mode {
      NoTeamsWithoutMembers(db.roster.teams);
    }
  }

  lemma RegisterFinishKeepsCreators(db: Db, r: nat, suffix: string)
    requires CreatorsDistinct(db.roster.teams) && TeamInv(db)
    ensures CreatorsDistinct(RegisterFinish(db, r, suffix).0.roster.teams)
  {
    hide TeamShape, AccountKeys, MutationsCapped, MayRegister, NameTaken, AddSession, UseCode;
  }

  lemma NobodyEnters(db: Db, c: Command)
    requires (db.event.mode == Individual || !AllowsRegistration(db.event, db.now)) && OnTeams(c)
    ensures Enter(db, c.r).Failure?
  {
    hide Mutations, AllowsRegistration;
  }

  lemma TeamChangesClosed(db: Db, c: Command)
    requires (db.event.mode == Individual || !AllowsRegistration(db.event, db.now)) && OnTeams(c)
    ensures HandleTeams(db, c).0 == db
  {
    NobodyEnters(db, c);
    hide Enter;
  }

  lemma HandleKeepsEvent(db: Db, c: Command)
    requires EventInv(db) && TeamInv(db) && Timely(db, c)
    ensures EventInv(Handle(db, c).0)
  {
    hide Handle, HandleTeams, HandleBegin, HandleAccounts, HandleSetup, RegisterFinish, LoginAttempt, PasswordAttempt,
         SubmitFlag, UpdateEvent, TeamInv, TimesOk, CreatorsDistinct;
    HandleIs(db, c);
    if c.DoUpdateEvent? {
      hide EventInv;
      UpdateEventKeepsEvent(db, c.eventPatch, c.checked);
    } else {
      HandleWrites(db, c);
      if c.DoRegisterFinish? && db.event.mode == Individual { RegisterFinishKeepsCreators(db, c.r, c.suffix); }
      if OnTeams(c) && db.event.mode == Individual { TeamChangesClosed(db, c); }
    }
  }

  /** All the invariants the board rests on. */
  ghost predicate BoardInv(db: Db) {
    EventInv(db) && TeamInv(db) && LogInv(db) && C.GraphInv(db.challenges, db.next)
  }

  lemma StepKeepsBoard(db: Db, c: Command)
    requires BoardInv(db) && Timely(db, c)
    ensures BoardInv(Step(db, c))
  {
    hide TeamInv, LogInv, C.GraphInv, Handle, Step, CreatorsDistinct, TimesOk, Timely;
    HandleKeepsEvent(db, c);
    C.StepKeepsGraph(db, c);
    StepKeepsLog(db, c);
    StepCloses(db, c);
  }

  lemma {:induction false} RunKeepsBoard(db: Db, commands: seq<Command>)
    requires BoardInv(db) && TimelyRun(db, commands)
    ensures BoardInv(Run(db, commands))
  {
    hide BoardInv, Step, Timely;
    if commands != [] {
      var n := |commands| - 1;
      TimelyPrefix(db, commands, n);
      RunKeepsBoard(db, commands[..n]);
      assert Timely(Run(db, commands[..n]), commands[n]);
      StepKeepsBoard(Run(db, commands[..n]), commands[n]);
    }
  }

  lemma BootstrappedBoard(db: Db)
    requires Bootstrapped(db)
    ensures BoardInv(db)
  {
    hide LogInv, TeamInv, C.GraphInv;
    BootstrappedLog(db);
    C.BootstrappedGraph(db);
  }

  // ---------- the ranking is determined ----------

  lemma ListedNamesDiffer(db: Db, t: Id, s: Id)
    requires EventInv(db) && TeamInv(db) && t in db.roster.teams && s in db.roster.teams && t != s
    ensures ListedName(db.event.mode, db.roster.teams[t], db.accounts.users).folded
            != ListedName(db.event.mode, db.roster.teams[s], db.accounts.users).folded
  {
    hide TeamShape, MutationsCapped, TimesOk, Participants;
  }

  lemma EntriesHaveNames(db: Db, totals: seq<B.Contribution>)
    requires EventInv(db) && TeamInv(db) && B.TeamsDistinct(totals)
    ensures B.NamesUnique(Entries(totals, db.roster.teams, db.accounts.users, db.event.mode))
  {
    hide EventInv, TeamInv, ListedName;
    var rows := Entries(totals, db.roster.teams, db.accounts.users, db.event.mode);
    forall a, b | a in rows && b in rows && a != b ensures a.name.folded != b.name.folded {
      assert a.team != b.team;
      ListedNamesDiffer(db, a.team, b.team);
    }
  }

  ghost predicate IsBoard(db: Db, ties: S.TieRule, list: seq<B.Entry>) {
    L.IsTop(PublicEntries(db, ties), B.RanksBefore, B.MAX_ENTRIES, list)
  }

  /** In every reachable state the rows have different names under lower(), so there is exactly one ranked
      list of the first 1,000. */
  lemma {:induction false} BoardIsDetermined(start: Db, commands: seq<Command>, ties: S.TieRule)
    requires Bootstrapped(start) && TimelyRun(start, commands)
    ensures exists list :: IsBoard(Run(start, commands), ties, list)
    ensures forall p, q :: IsBoard(Run(start, commands), ties, p) && IsBoard(Run(start, commands), ties, q) ==> p == q
  {
    hide Run, Bootstrapped, TimelyRun, EventInv, TeamInv, LogInv, Entries, Totals, L.IsTop, B.NamesUnique, Cutoff;
    BootstrappedBoard(start);
    RunKeepsBoard(start, commands);
    var db := Run(start, commands);
    TotalsDistinct(db, Cutoff(db.event, db.now), ties);
    EntriesHaveNames(db, Totals(db, Cutoff(db.event, db.now), ties));
    B.RankingIsDetermined(PublicEntries(db, ties));
    var list :| L.IsTop(PublicEntries(db, ties), B.RanksBefore, B.MAX_ENTRIES, list);
    assert IsBoard(db, ties, list);
  }

  lemma TotalsDistinct(db: Db, cutoff: Option<Time>, ties: S.TieRule)
    ensures B.TeamsDistinct(Totals(db, cutoff, ties))
  {
    hide B.TeamTotals;
    B.StagedIsDirect(db.log.solves, db.log.scores, db.challenges, cutoff, ties, 0);
  }

  // ---------- freezing ----------

  predicate BeforeEnd(event: Event) {
    event.state == Live || event.state == Frozen
  }

  /** The board is still frozen, at the same instant. */
  predicate StillFrozen(db: Db, db': Db) {
    BoardFrozen(db'.event, db'.now) && db'.event.freezeAt == db.event.freezeAt
  }

  /** An edit whose check has seen the freeze, and a solve that comes after it. */
  predicate Foreseen(db: Db, c: Command) {
    match c
    case DoUpdateEvent(_, checked) => BoardFrozen(db.event, checked)
    case DoUpdateChallenge(_, _, checked) => BoardFrozen(db.event, checked)
    case DoSubmit(_, a) => db.event.freezeAt.Some? && db.event.freezeAt.value < a.solvedAt
    case _ => true
  }

  lemma EditKeepsFreeze(db: Db, p: EventPatch, checked: Time)
    requires EventInv(db) && BoardFrozen(db.event, db.now) && db.edited <= checked <= db.now
             && BoardFrozen(db.event, checked)
    ensures var db' := UpdateEvent(db, p, checked).0; BeforeEnd(db'.event) ==> StillFrozen(db, db')
  {
    hide TimesOk, CreatorsDistinct, Participants;
  }

  lemma HandleKeepsFreeze(db: Db, c: Command)
    requires EventInv(db) && Timely(db, c) && BoardFrozen(db.event, db.now) && Foreseen(db, c)
    ensures var db' := Handle(db, c).0; BeforeEnd(db'.event) ==> StillFrozen(db, db')
  {
    hide Handle, HandleTeams, HandleBegin, HandleAccounts, HandleSetup, RegisterFinish, LoginAttempt, PasswordAttempt,
         SubmitFlag, UpdateEvent, EventInv, BeforeEnd;
    HandleIs(db, c);
    if c.DoUpdateEvent? {
      EditKeepsFreeze(db, c.eventPatch, c.checked);
    } else {
      HandleWrites(db, c);
    }
  }

  // ---------- the rows behind the entries ----------

  /** Scoring of every challenge that has a solve is unchanged. */
  ghost predicate SameScoring(solves: seq<Solve>, a: map<Id, Challenge>, b: map<Id, Challenge>) {
    forall i :: 0 <= i < |solves| ==>
      solves[i].challenge in a && solves[i].challenge in b
        && a[solves[i].challenge].scoring == b[solves[i].challenge].scoring
  }

  lemma {:induction false} SameVisible(
    solves: seq<Solve>, a: map<Id, Challenge>, b: map<Id, Challenge>, cutoff: Option<Time>)
    requires SameScoring(solves, a, b)
    ensures B.VisibleSolves(solves, a, cutoff) == B.VisibleSolves(solves, b, cutoff)
    ensures SameScoring(B.VisibleSolves(solves, a, cutoff), a, b)
  {
    if solves != [] { SameVisible(solves[..|solves| - 1], a, b, cutoff); }
  }

  lemma {:induction false} SameSolveRows(
    rows: seq<Solve>, a: map<Id, Challenge>, b: map<Id, Challenge>, counts: seq<B.CountRow>, ties: S.TieRule)
    requires SameScoring(rows, a, b)
    ensures B.SolveRows(rows, a, counts, ties) == B.SolveRows(rows, b, counts, ties)
  {
    if rows != [] { SameSolveRows(rows[..|rows| - 1], a, b, counts, ties); }
  }

  /** The query depends on a challenge only through its scoring. */
  lemma TotalsOfScoring(
    solves: seq<Solve>, scores: seq<ScoreEvent>, a: map<Id, Challenge>, b: map<Id, Challenge>,
    cutoff: Option<Time>, ties: S.TieRule)
    requires SameScoring(solves, a, b)
    ensures B.TeamTotals(solves, scores, a, cutoff, ties) == B.TeamTotals(solves, scores, b, cutoff, ties)
  {
    hide B.GroupByTeam, B.AwardRows, B.VisibleAwards, B.VisibleSolves, B.SolveRows, B.ChallengeCounts;
    SameVisible(solves, a, b, cutoff);
    var visible := B.VisibleSolves(solves, a, cutoff);
    SameSolveRows(visible, a, b, B.ChallengeCounts(visible), ties);
  }

  /** A solve or score stamped after the cutoff is not on the board. */
  lemma LateRowsHidden(log: Log, v: Solve, e: ScoreEvent, challenges: map<Id, Challenge>, cutoff: Time, ties: S.TieRule)
    requires cutoff < v.at && e.kind.SolveScore?
    ensures B.TeamTotals(log.solves + [v], log.scores + [e], challenges, Some(cutoff), ties)
            == B.TeamTotals(log.solves, log.scores, challenges, Some(cutoff), ties)
  {
    hide B.GroupByTeam, B.AwardRows, B.SolveRows, B.ChallengeCounts;
    assert (log.solves + [v])[..|log.solves|] == log.solves;
    assert (log.scores + [e])[..|log.scores|] == log.scores;
    assert B.VisibleSolves(log.solves + [v], challenges, Some(cutoff))
           == B.VisibleSolves(log.solves, challenges, Some(cutoff));
    assert B.VisibleAwards(log.scores + [e], Some(cutoff)) == B.VisibleAwards(log.scores, Some(cutoff));
  }

  /** One stamped at the cutoff or before it is, whenever it commits: the exception is a real one. */
  lemma PunctualRowsShown(log: Log, v: Solve, challenges: map<Id, Challenge>, cutoff: Time)
    requires v.at <= cutoff && v.challenge in challenges
    ensures B.VisibleSolves(log.solves + [v], challenges, Some(cutoff))
            == B.VisibleSolves(log.solves, challenges, Some(cutoff)) + [v]
  {
    assert (log.solves + [v])[..|log.solves|] == log.solves;
  }

  lemma SubmitKeepsTotals(db: Db, r: nat, a: Attempt, cutoff: Time, ties: S.TieRule)
    requires cutoff < a.solvedAt
    ensures Totals(SubmitFlag(db, r, a).0, Some(cutoff), ties) == Totals(db, Some(cutoff), ties)
  {
    hide Rule, B.TeamTotals, SolveCount, S.ChallengePoints;
    var ruling := Rule(db, r, a);
    if ruling.Accept? && IsCorrect(ruling.challenge, a) {
      hide IsCorrect;
      var log' := SubmitFlag(db, r, a).0.log;
      LateRowsHidden(db.log, log'.solves[|db.log.solves|], log'.scores[|db.log.scores|], db.challenges, cutoff, ties);
    } else {
      hide IsCorrect;
    }
  }

  /** While the check sees the freeze, an edit leaves the scoring of every challenge alone; other edits never
      touch it. */
  lemma SetupKeepsScoring(db: Db, c: Command, id: Id)
    requires OnSetup(c) && id in db.challenges && id in HandleSetup(db, c).0.challenges && Foreseen(db, c)
    requires forall k :: k in db.challenges ==> k < db.next
    ensures HandleSetup(db, c).0.challenges[id].scoring == db.challenges[id].scoring
  {
    hide CreateRefusal, PrerequisiteRefusal, SlugTaken, ChallengeSubmitted, DropChallengeScores, DropChallengeSolves;
  }

  lemma EditKeepsScoring(db: Db, c: Command, id: Id)
    requires id in db.challenges && id in Handle(db, c).0.challenges && Foreseen(db, c)
    requires forall k :: k in db.challenges ==> k < db.next
    ensures Handle(db, c).0.challenges[id].scoring == db.challenges[id].scoring
  {
    hide Handle, HandleTeams, HandleBegin, HandleAccounts, HandleSetup, RegisterFinish, LoginAttempt, PasswordAttempt,
         SubmitFlag, UpdateEvent, Foreseen;
    HandleIs(db, c);
    if OnSetup(c) {
      SetupKeepsScoring(db, c, id);
    } else {
      HandleWrites(db, c);
    }
  }

  lemma HandleKeepsTotals(db: Db, c: Command, ties: S.TieRule)
    requires BoardInv(db) && BoardFrozen(db.event, db.now) && db.event.freezeAt.Some? && Foreseen(db, c)
    ensures Totals(Handle(db, c).0, db.event.freezeAt, ties) == Totals(db, db.event.freezeAt, ties)
  {
    hide Handle, HandleTeams, HandleBegin, HandleAccounts, HandleSetup, RegisterFinish, LoginAttempt, PasswordAttempt,
         SubmitFlag, UpdateEvent, BoardInv, Totals;
    HandleIs(db, c);
    if c.DoSubmit? {
      SubmitKeepsTotals(db, c.r, c.attempt, db.event.freezeAt.value, ties);
    } else {
      OthersKeepTotals(db, c, ties);
    }
  }

  lemma OthersKeepTotals(db: Db, c: Command, ties: S.TieRule)
    requires BoardInv(db) && Foreseen(db, c) && !c.DoSubmit?
    ensures Totals(Handle(db, c).0, db.event.freezeAt, ties) == Totals(db, db.event.freezeAt, ties)
  {
    hide TeamInv, LogInv, EventInv, G.Acyclic, G.Closed, SlugsUnique, Handle, Foreseen, B.TeamTotals;
    HandleKeepsLog(db, c);
    var db' := Handle(db, c).0;
    SolvesAnchored(db);
    SolvesAnchored(db');
    forall i | 0 <= i < |db.log.solves|
      ensures db.challenges[db.log.solves[i].challenge].scoring == db'.challenges[db.log.solves[i].challenge].scoring
    {
      EditKeepsScoring(db, c, db.log.solves[i].challenge);
    }
    TotalsOfScoring(db.log.solves, db.log.scores, db.challenges, db'.challenges, db.event.freezeAt, ties);
  }

  // ---------- the names behind the entries ----------

  /** Outside the registration window no handler changes a team, a membership or the set of accounts. */
  lemma ClosedRegistrationStands(db: Db, c: Command)
    requires !AllowsRegistration(db.event, db.now)
    ensures Handle(db, c).0.roster == db.roster
    ensures AccountsAge(db.accounts.users, Handle(db, c).0.accounts.users)
  {
    hide Handle, HandleTeams, HandleBegin, HandleAccounts, HandleSetup, RegisterFinish, LoginAttempt, PasswordAttempt,
         SubmitFlag, UpdateEvent, AccountsAge, AllowsRegistration;
    HandleIs(db, c);
    if c.DoRegisterFinish? {
      RegistrationIsClosed(db, c.r, c.suffix);
    } else {
      HandleAges(db, c);
      if OnTeams(c) {
        TeamChangesClosed(db, c);
      } else {
        HandleWrites(db, c);
      }
    }
  }

  lemma RegistrationIsClosed(db: Db, r: nat, suffix: string)
    requires !AllowsRegistration(db.event, db.now)
    ensures RegisterFinish(db, r, suffix).0 == db
    ensures AccountsAge(db.accounts.users, db.accounts.users)
  {
    hide NameTaken, AddSession, UseCode, CodeOrDenied, AccountTaken, Participants;
  }

  /** Whatever changes teams, memberships or the set of accounts happens in the registration state, from
      registration_at on and before end_at. */
  lemma RosterChangesInWindow(db: Db, c: Command)
    requires Handle(db, c).0.roster != db.roster || Handle(db, c).0.accounts.users.Keys != db.accounts.users.Keys
    ensures db.event.state == Registration
    ensures db.event.registrationAt.Some? ==> db.event.registrationAt.value <= db.now
    ensures db.event.endAt.Some? ==> db.now < db.event.endAt.value
  {
    hide Handle;
    if !AllowsRegistration(db.event, db.now) { ClosedRegistrationStands(db, c); }
    RegistrationWindow(db.event, db.now);
  }

  /** Teams and registration are closed while a board is frozen, and accounts keep their names. */
  lemma FrozenTeamsStand(db: Db, c: Command)
    requires BoardFrozen(db.event, db.now)
    ensures Handle(db, c).0.roster == db.roster
    ensures AccountsAge(db.accounts.users, Handle(db, c).0.accounts.users)
  {
    hide Handle, AccountsAge;
    ClosedRegistrationStands(db, c);
  }

  lemma ModeStands(db: Db, c: Command)
    requires TeamInv(db) && db.roster.teams != map[]
    ensures Handle(db, c).0.event.mode == db.event.mode
  {
    hide Handle, HandleTeams, HandleBegin, HandleAccounts, HandleSetup, RegisterFinish, LoginAttempt, PasswordAttempt,
         SubmitFlag, UpdateEvent, TeamInv;
    HandleIs(db, c);
    if c.DoUpdateEvent? {
      EditKeepsMode(db, c.eventPatch, c.checked);
    } else {
      HandleWrites(db, c);
    }
  }

  lemma EditKeepsMode(db: Db, p: EventPatch, checked: Time)
    requires TeamInv(db) && db.roster.teams != map[]
    ensures UpdateEvent(db, p, checked).0.event.mode == db.event.mode
  {
    hide TeamShape, TeamKeys, AccountKeys, MutationsCapped, TimesOk, Participants, FreezeLocked, NewFreezeAt;
    if db.roster.members == map[] { NoTeamsWithoutMembers(db.roster.teams); }
  }

  lemma SameEntries(
    totals: seq<B.Contribution>, teams: map<Id, Team>, a: Users, b: Users, mode: TeamMode, mode': TeamMode)
    requires AccountsAge(a, b) && (teams != map[] ==> mode == mode')
    ensures Entries(totals, teams, a, mode) == Entries(totals, teams, b, mode')
  {
    forall i | 0 <= i < |totals| && totals[i].team in teams
      ensures ListedName(mode, teams[totals[i].team], a) == ListedName(mode', teams[totals[i].team], b)
    {
    }
  }

  /** One step of any handler leaves the frozen board as it is. */
  lemma StepKeepsFrozenBoard(db: Db, c: Command, ties: S.TieRule)
    requires BoardInv(db) && Timely(db, c) && BoardFrozen(db.event, db.now) && Foreseen(db, c)
    requires BeforeEnd(Step(db, c).event)
    ensures StillFrozen(db, Step(db, c)) && PublicEntries(Step(db, c), ties) == PublicEntries(db, ties)
  {
    hide TeamInv, LogInv, Handle, Step, Totals, Entries, AccountsAge, CreatorsDistinct, TimesOk, Timely, Foreseen,
         BeforeEnd;
    StepCloses(db, c);
    HandleKeepsFreeze(db, c);
    HandleKeepsTotals(db, c, ties);
    FrozenTeamsStand(db, c);
    if db.roster.teams != map[] { ModeStands(db, c); }
    var end := Handle(db, c).0;
    SameTotals(end, Step(db, c), db.event.freezeAt, ties);
    SameEntries(Totals(db, db.event.freezeAt, ties), db.roster.teams, db.accounts.users, end.accounts.users,
      db.event.mode, end.event.mode);
  }

  lemma SameTotals(a: Db, b: Db, cutoff: Option<Time>, ties: S.TieRule)
    requires a.log == b.log && a.challenges == b.challenges
    ensures Totals(a, cutoff, ties) == Totals(b, cutoff, ties)
  {
    hide B.TeamTotals;
  }

  // ---------- freezing over runs ----------

  lemma StepAdvancesState(db: Db, c: Command)
    ensures db.event.state.Index() <= Step(db, c).event.state.Index()
  {
    hide Step, FreezeLocked, Participants, TimesOk, NewFreezeAt;
    StepCloses(db, c);
    if !c.DoUpdateEvent? {
      hide Handle;
      HandleWrites(db, c);
    }
  }

  /** The state of the event never moves backwards. */
  lemma {:induction false} RunAdvancesState(db: Db, commands: seq<Command>, n: nat)
    requires n <= |commands|
    ensures Run(db, commands[..n]).event.state.Index() <= Run(db, commands).event.state.Index()
  {
    hide Step;
    if n == |commands| {
      assert commands[..n] == commands;
    } else {
      var m := |commands| - 1;
      RunAdvancesState(db, commands[..m], n);
      assert commands[..m][..n] == commands[..n];
      StepAdvancesState(Run(db, commands[..m]), commands[m]);
    }
  }

  ghost predicate ForeseenRun(db: Db, commands: seq<Command>) {
    forall k :: 0 <= k < |commands| ==> Foreseen(Run(db, commands[..k]), commands[k])
  }

  lemma ForeseenPrefix(db: Db, commands: seq<Command>, n: nat)
    requires ForeseenRun(db, commands) && n <= |commands|
    ensures ForeseenRun(db, commands[..n])
  {
    hide Foreseen;
    forall k | 0 <= k < n ensures Foreseen(Run(db, commands[..n][..k]), commands[..n][k]) {
      assert commands[..n][..k] == commands[..k];
    }
  }

  /** Once the board is frozen, no later step of any handler before the event ends changes what it shows, except
      a solve stamped by freeze_at that commits late, or an edit whose check came before the freeze. */
  lemma {:induction false} FrozenBoardStands(db: Db, commands: seq<Command>, ties: S.TieRule)
    requires BoardInv(db) && TimelyRun(db, commands) && ForeseenRun(db, commands)
    requires BoardFrozen(db.event, db.now) && BeforeEnd(Run(db, commands).event)
    ensures StillFrozen(db, Run(db, commands)) && PublicEntries(Run(db, commands), ties) == PublicEntries(db, ties)
  {
    hide BoardInv, Step, Timely, Foreseen, PublicEntries;
    if commands != [] {
      var n := |commands| - 1;
      var middle := Run(db, commands[..n]);
      TimelyPrefix(db, commands, n);
      ForeseenPrefix(db, commands, n);
      assert commands[..0] == [];
      RunAdvancesState(db, commands[..n], 0);
      RunAdvancesState(db, commands, n);
      assert commands[..n][..0] == [];
      FrozenBoardStands(db, commands[..n], ties);
      RunKeepsBoard(db, commands[..n]);
      assert Timely(middle, commands[n]) && Foreseen(middle, commands[n]);
      StepKeepsFrozenBoard(middle, commands[n], ties);
    }
  }

  // ---------- exactly when a submission keeps the board ----------

  function VisibleOn(db: Db): seq<Solve> {
    B.VisibleSolves(db.log.solves, db.challenges, Cutoff(db.event, db.now))
  }

  /** An entry shows how many visible solves its team has. */
  lemma EntryCountsSolves(db: Db, e: B.Entry, ties: S.TieRule)
    requires e in PublicEntries(db, ties)
    ensures e.total.solves == B.SolvesOf(VisibleOn(db), e.team)
  {
    hide B.TeamTotals, B.VisibleSolves, B.VisibleAwards, B.SolveTotal, B.AwardTotal, ListedName, Cutoff;
    var cutoff := Cutoff(db.event, db.now);
    B.StagedIsDirect(db.log.solves, db.log.scores, db.challenges, cutoff, ties, e.team);
    B.SolvesAreCounted(VisibleOn(db), e.team, VisibleOn(db), db.challenges, ties);
  }

  lemma SolverIsListed(db: Db, team: Id, ties: S.TieRule) returns (e: B.Entry)
    requires team in db.roster.teams && B.SolvesOf(VisibleOn(db), team) > 0
    ensures e in PublicEntries(db, ties) && e.team == team
  {
    hide B.TeamTotals, B.VisibleSolves, B.VisibleAwards, B.SolveTotal, B.AwardTotal, ListedName, Cutoff;
    B.StagedIsDirect(db.log.solves, db.log.scores, db.challenges, Cutoff(db.event, db.now), ties, team);
    var k := B.SolverHasRow(VisibleOn(db), team);
    var totals := Totals(db, Cutoff(db.event, db.now), ties);
    var i :| 0 <= i < |totals| && totals[i].team == team;
    e := B.Entry(team, ListedName(db.event.mode, db.roster.teams[team], db.accounts.users), totals[i].total);
  }

  /** One more visible solve of a team shows. */
  lemma MoreSolvesShow(db: Db, db': Db, team: Id, ties: S.TieRule)
    requires team in db'.roster.teams && B.SolvesOf(VisibleOn(db'), team) > B.SolvesOf(VisibleOn(db), team)
    ensures PublicEntries(db', ties) != PublicEntries(db, ties)
  {
    hide PublicEntries, VisibleOn, B.SolvesOf;
    var e := SolverIsListed(db', team, ties);
    EntryCountsSolves(db', e, ties);
    if e in PublicEntries(db, ties) { EntryCountsSolves(db, e, ties); }
  }

  /** The submission is accepted and right. */
  predicate Scores(db: Db, r: nat, a: Attempt) {
    Rule(db, r, a).Accept? && IsCorrect(Rule(db, r, a).challenge, a)
  }

  lemma ScoredRow(db: Db, r: nat, a: Attempt)
    requires Scores(db, r, a)
    ensures var team := Rule(db, r, a).team; var db' := SubmitFlag(db, r, a).0;
            && team in db.roster.teams && a.challenge in db.challenges
            && db' == db.(next := db'.next, log := db'.log)
            && |db'.log.solves| > |db.log.solves|
            && var v := db'.log.solves[|db.log.solves|];
               && db'.log.solves == db.log.solves + [v]
               && v.team == team && v.challenge == a.challenge && v.at == a.solvedAt
  {
    AcceptIsAdmitted(db, r, a);
    hide Rule, IsCorrect, SolveCount, S.ChallengePoints, IsAccessible, StillSignedIn, AllowsSubmission, StoredUnder,
         Attempts, EventAttempts, IsSolved;
  }

  lemma PunctualSolveShows(db: Db, r: nat, a: Attempt, ties: S.TieRule)
    requires Scores(db, r, a) && BoardFrozen(db.event, db.now) && db.event.freezeAt.Some?
    requires a.solvedAt <= db.event.freezeAt.value
    ensures PublicEntries(SubmitFlag(db, r, a).0, ties) != PublicEntries(db, ties)
  {
    hide Scores, Rule, SubmitFlag, PublicEntries, BoardFrozen, B.VisibleSolves;
    ScoredRow(db, r, a);
    var db' := SubmitFlag(db, r, a).0;
    var v := db'.log.solves[|db.log.solves|];
    PunctualRowsShown(db.log, v, db.challenges, db.event.freezeAt.value);
    assert (VisibleOn(db) + [v])[..|VisibleOn(db)|] == VisibleOn(db);
    MoreSolvesShow(db, db', v.team, ties);
  }

  /** A submission leaves a frozen board as it is if and only if it is refused or wrong, or its solve is stamped after
      the freeze: one stamped by freeze_at shows however late it commits. */
  lemma SubmissionKeepsBoardExactly(db: Db, r: nat, a: Attempt, ties: S.TieRule)
    requires EventInv(db) && BoardFrozen(db.event, db.now)
    ensures db.event.freezeAt.Some?
    ensures PublicEntries(SubmitFlag(db, r, a).0, ties) == PublicEntries(db, ties)
            <==> !Scores(db, r, a) || db.event.freezeAt.value < a.solvedAt
  {
    hide TimesOk, CreatorsDistinct;
    FrozenHasInstant(db);
    hide Rule, IsCorrect, EventInv, BoardFrozen;
    if Scores(db, r, a) && a.solvedAt <= db.event.freezeAt.value {
      PunctualSolveShows(db, r, a, ties);
    } else {
      UnseenSubmission(db, r, a, ties);
    }
  }

  lemma FrozenHasInstant(db: Db)
    requires EventInv(db) && BoardFrozen(db.event, db.now)
    ensures db.event.freezeAt.Some?
  {
    hide TimesOk, CreatorsDistinct;
  }

  lemma UnseenSubmission(db: Db, r: nat, a: Attempt, ties: S.TieRule)
    requires BoardFrozen(db.event, db.now) && db.event.freezeAt.Some?
    requires !Scores(db, r, a) || db.event.freezeAt.value < a.solvedAt
    ensures PublicEntries(SubmitFlag(db, r, a).0, ties) == PublicEntries(db, ties)
  {
    hide Rule, IsCorrect, Entries, BoardFrozen, SolveCount, S.ChallengePoints, B.TeamTotals;
    if Scores(db, r, a) {
      ScoredRow(db, r, a);
      SubmitKeepsTotals(db, r, a, db.event.freezeAt.value, ties);
    } else {
      WrongKeepsRows(db, r, a);
      assert Cutoff(db.event, db.now) == db.event.freezeAt;
    }
  }

  lemma WrongKeepsRows(db: Db, r: nat, a: Attempt)
    requires !Scores(db, r, a)
    ensures var db' := SubmitFlag(db, r, a).0;
            && db'.log.solves == db.log.solves && db'.log.scores == db.log.scores
            && db' == db.(next := db'.next, log := db'.log)
  {
    hide Rule, IsCorrect;
  }

  // ---------- exactly when an edit keeps the freeze ----------

  /** An edit is checked before the freeze and commits after it: the promise is kept whatever the edit asks for
      if and only if the board was already frozen when the check was made. */
  lemma FreezeHoldsExactly(db: Db, checked: Time)
    requires EventInv(db) && BoardFrozen(db.event, db.now) && db.edited <= checked <= db.now
    ensures BoardFrozen(db.event, checked)
            <==> forall p :: BeforeEnd(UpdateEvent(db, p, checked).0.event) ==>
              StillFrozen(db, UpdateEvent(db, p, checked).0)
  {
    if BoardFrozen(db.event, checked) {
      forall p
        ensures BeforeEnd(UpdateEvent(db, p, checked).0.event) ==> StillFrozen(db, UpdateEvent(db, p, checked).0)
      {
        EditKeepsFreeze(db, p, checked);
      }
    } else {
      ThawPasses(db, checked);
      assert !StillFrozen(db, UpdateEvent(db, THAW, checked).0);
    }
  }

  /** An edit that takes freeze_at away. */
  const THAW := EventPatch(false, None, None, None, Some(None), None, None, None)

  lemma ThawPasses(db: Db, checked: Time)
    requires EventInv(db) && BoardFrozen(db.event, db.now) && !BoardFrozen(db.event, checked)
    ensures UpdateEvent(db, THAW, checked).1 == Done
    ensures BeforeEnd(UpdateEvent(db, THAW, checked).0.event) && !StillFrozen(db, UpdateEvent(db, THAW, checked).0)
  {
    hide CreatorsDistinct, Participants;
  }

  /** The same for the scoring of a challenge. */
  lemma ScoringHoldsExactly(db: Db, id: Id, checked: Time)
    requires BoardFrozen(db.event, db.now) && id in db.challenges && C.GraphInv(db.challenges, db.next)
    ensures BoardFrozen(db.event, checked)
            <==> forall p :: UpdatedScoring(db, id, p, checked) == db.challenges[id].scoring
  {
    if BoardFrozen(db.event, checked) {
      forall p ensures UpdatedScoring(db, id, p, checked) == db.challenges[id].scoring {
        LockedScoring(db, id, p, checked);
      }
    } else {
      RescorePasses(db, id, checked);
    }
  }

  /** The scoring of the challenge after an edit. */
  ghost function UpdatedScoring(db: Db, id: Id, p: ChallengePatch, checked: Time): S.Scoring
    requires id in db.challenges
  {
    if UpdateRefusal(db, id, p, checked).None? then NewScoring(db.challenges[id].scoring, p)
    else db.challenges[id].scoring
  }

  lemma LockedScoring(db: Db, id: Id, p: ChallengePatch, checked: Time)
    requires id in db.challenges && BoardFrozen(db.event, checked)
    ensures UpdatedScoring(db, id, p, checked) == db.challenges[id].scoring
  {
    hide NewScoring, PrerequisiteRefusal, SlugTaken;
  }

  /** An edit that turns fixed scoring into dynamic scoring or back. */
  function Rescore(kind: S.Kind): ChallengePatch {
    ChallengePatch(None, Some(kind), None, None, None, None, None, None, None, None)
  }

  lemma RescorePasses(db: Db, id: Id, checked: Time)
    requires BoardFrozen(db.event, db.now) && !BoardFrozen(db.event, checked) && id in db.challenges
    requires !SlugTaken(db.challenges, db.challenges[id].slug, Some(id))
    ensures var other := if db.challenges[id].scoring.kind == S.Fixed then S.Dynamic else S.Fixed;
            UpdatedScoring(db, id, Rescore(other), checked).kind == other != db.challenges[id].scoring.kind
  {
    hide SlugTaken, PrerequisiteRefusal;
  }

  /** A concrete one: freeze_at is 10, the edit is checked at 9 and commits at 11, and the board thaws. */
  lemma StraddlingEditThaws(db: Db)
    requires db.event == Event(Live, None, Some(0.0), Some(10.0), Some(20.0), Teams, Open) && db.now == 11.0
             && db.edited == 1.0
    ensures Timely(db, DoUpdateEvent(THAW, 9.0)) && BoardFrozen(db.event, db.now)
    ensures var db' := UpdateEvent(db, THAW, 9.0).0; db'.event.state == Live && !BoardFrozen(db'.event, db'.now)
  {
  }
}
