/** What the public scoreboard shows, read off the tables: all rows while it is not frozen and once the event is over,
    and exactly the rows stamped by freeze_at while it is. */
module PublicBoard {
  import opened Basics
  import opened Schema
  import opened Services
  import opened Database
  import opened AdminRoutes
  import opened Contest
  import opened WriteSets
  import opened TeamInvariants
  import opened SubmissionInvariants
  import C = ChallengeAccess
  import F = FrozenBoard
  import B = Scoreboard
  import S = Scoring

  // ---------- the board, straight from rows ----------

  /** The rows stamped by this instant. */
  function UpTo(rows: seq<Solve>, limit: Time): seq<Solve> {
    if rows == [] then []
    else var n := |rows| - 1; UpTo(rows[..n], limit) + (if rows[n].at <= limit then [rows[n]] else [])
  }

  function ScoresUpTo(rows: seq<ScoreEvent>, limit: Time): seq<ScoreEvent> {
    if rows == [] then []
    else var n := |rows| - 1; ScoresUpTo(rows[..n], limit) + (if rows[n].at <= limit then [rows[n]] else [])
  }

  /** The team's solves among `rows`, each at challenge_points for the number of solves in `counted`. */
  function Earned(rows: seq<Solve>, team: Id, counted: seq<Solve>, challenges: map<Id, Challenge>): B.Total {
    if rows == [] then B.Zero
    else
      var n := |rows| - 1;
      var before := Earned(rows[..n], team, counted, challenges);
      if rows[n].team == team && rows[n].challenge in challenges then
        var scoring := challenges[rows[n].challenge].scoring;
        before.Plus(B.Total(S.ChallengePoints(scoring, SolveCount(counted, rows[n].challenge)), 1, Some(rows[n].at)))
      else before
  }

  function Awarded(scores: seq<ScoreEvent>, team: Id): int {
    if scores == [] then 0
    else
      var n := |scores| - 1;
      Awarded(scores[..n], team)
      + (if scores[n].team == team && scores[n].kind == Award && scores[n].active then scores[n].points else 0)
  }

  predicate HasSolve(solves: seq<Solve>, team: Id, challenges: map<Id, Challenge>) {
    exists i :: 0 <= i < |solves| && solves[i].team == team && solves[i].challenge in challenges
  }

  predicate HasAward(scores: seq<ScoreEvent>, team: Id) {
    exists i :: 0 <= i < |scores| && scores[i].team == team && scores[i].kind == Award && scores[i].active
  }

  /** The entry of a team with something to show among these rows, under the team's name or its creator's. */
  ghost predicate IsEntry(db: Db, solves: seq<Solve>, scores: seq<ScoreEvent>, e: B.Entry) {
    && e.team in db.roster.teams
    && (HasSolve(solves, e.team, db.challenges) || HasAward(scores, e.team))
    && e.total
       == Earned(solves, e.team, solves, db.challenges).Plus(B.Total(Awarded(scores, e.team), 0, None))
    && var team := db.roster.teams[e.team];
       e.name == match db.event.mode
                 case Teams => team.name
                 case Individual =>
                   if team.creator in db.accounts.users then db.accounts.users[team.creator].username else F.NOBODY
  }

  // ---------- against the query ----------

  function Through(rows: seq<Solve>, cutoff: Option<Time>): seq<Solve> {
    if cutoff.None? then rows else UpTo(rows, cutoff.value)
  }

  function ScoresThrough(rows: seq<ScoreEvent>, cutoff: Option<Time>): seq<ScoreEvent> {
    if cutoff.None? then rows else ScoresUpTo(rows, cutoff.value)
  }

  lemma ThroughSplits(rows: seq<Solve>, cutoff: Option<Time>)
    requires rows != []
    ensures var n := |rows| - 1;
            Through(rows, cutoff)
            == if B.Visible(rows[n].at, cutoff) then Through(rows[..n], cutoff) + [rows[n]]
               else Through(rows[..n], cutoff)
  {
    var n := |rows| - 1;
    assert rows == rows[..n] + [rows[n]];
    assert UpTo(rows[..n], if cutoff.Some? then cutoff.value else 0.0) + []
           == UpTo(rows[..n], if cutoff.Some? then cutoff.value else 0.0);
  }

  lemma ScoresThroughSplits(rows: seq<ScoreEvent>, cutoff: Option<Time>)
    requires rows != []
    ensures var n := |rows| - 1;
            ScoresThrough(rows, cutoff)
            == if B.Visible(rows[n].at, cutoff) then ScoresThrough(rows[..n], cutoff) + [rows[n]]
               else ScoresThrough(rows[..n], cutoff)
  {
    var n := |rows| - 1;
    assert rows == rows[..n] + [rows[n]];
    assert ScoresUpTo(rows[..n], if cutoff.Some? then cutoff.value else 0.0) + []
           == ScoresUpTo(rows[..n], if cutoff.Some? then cutoff.value else 0.0);
  }

  lemma {:induction false} CountsAgree(rows: seq<Solve>, challenge: Id, cutoff: Option<Time>)
    ensures SolveCount(Through(rows, cutoff), challenge) == B.KnownSolves(rows, challenge, cutoff)
  {
    if rows != [] {
      var n := |rows| - 1;
      CountsAgree(rows[..n], challenge, cutoff);
      ThroughSplits(rows, cutoff);
      var before := Through(rows[..n], cutoff);
      assert (before + [rows[n]])[..|before|] == before;
      hide Through;
    }
  }

  lemma {:induction false} EarnedAgrees(
    rows: seq<Solve>, all: seq<Solve>, team: Id, challenges: map<Id, Challenge>, cutoff: Option<Time>)
    ensures Earned(Through(rows, cutoff), team, Through(all, cutoff), challenges)
            == B.SolvesWorth(rows, all, team, challenges, cutoff)
  {
    hide S.ChallengePoints, B.KnownSolves, SolveCount;
    if rows != [] {
      var n := |rows| - 1;
      EarnedAgrees(rows[..n], all, team, challenges, cutoff);
      ThroughSplits(rows, cutoff);
      CountsAgree(all, rows[n].challenge, cutoff);
      var before := Through(rows[..n], cutoff);
      assert (before + [rows[n]])[..|before|] == before;
    }
  }

  lemma {:induction false} AwardedAgrees(scores: seq<ScoreEvent>, team: Id, cutoff: Option<Time>)
    ensures Awarded(ScoresThrough(scores, cutoff), team) == B.AwardsWorth(scores, team, cutoff)
  {
    if scores != [] {
      var n := |scores| - 1;
      AwardedAgrees(scores[..n], team, cutoff);
      ScoresThroughSplits(scores, cutoff);
      var before := ScoresThrough(scores[..n], cutoff);
      assert (before + [scores[n]])[..|before|] == before;
    }
  }

  lemma {:induction false} VisibleAgrees(
    rows: seq<Solve>, challenges: map<Id, Challenge>, cutoff: Option<Time>, team: Id)
    ensures HasSolve(Through(rows, cutoff), team, challenges)
            <==> exists i :: 0 <= i < |B.VisibleSolves(rows, challenges, cutoff)|
                             && B.VisibleSolves(rows, challenges, cutoff)[i].team == team
  {
    if rows != [] {
      var n := |rows| - 1;
      VisibleAgrees(rows[..n], challenges, cutoff, team);
      ThroughSplits(rows, cutoff);
      B.VisibleSplits(rows, challenges, cutoff);
      var known := rows[n].challenge in challenges && B.Visible(rows[n].at, cutoff);
      var before := B.VisibleSolves(rows[..n], challenges, cutoff);
      HasSolveMore(Through(rows[..n], cutoff), rows[n], team, challenges);
      TeamMore(before, rows[n], team);
      hide HasSolve, Through, B.VisibleSolves, B.Visible;
    }
  }

  lemma HasSolveMore(rows: seq<Solve>, v: Solve, team: Id, challenges: map<Id, Challenge>)
    ensures HasSolve(rows + [v], team, challenges)
            <==> HasSolve(rows, team, challenges) || (v.team == team && v.challenge in challenges)
  {
    var more := rows + [v];
    assert more[|rows|] == v && forall i :: 0 <= i < |rows| ==> more[i] == rows[i];
  }

  lemma TeamMore(rows: seq<Solve>, v: Solve, team: Id)
    ensures (exists i :: 0 <= i < |rows + [v]| && (rows + [v])[i].team == team)
            <==> (exists i :: 0 <= i < |rows| && rows[i].team == team) || v.team == team
  {
    var more := rows + [v];
    assert more[|rows|] == v && forall i :: 0 <= i < |rows| ==> more[i] == rows[i];
  }

  lemma VisibleAwardsSplits(scores: seq<ScoreEvent>, cutoff: Option<Time>)
    requires scores != []
    ensures var n := |scores| - 1; var e := scores[n];
            B.VisibleAwards(scores, cutoff)
            == if e.kind == Award && e.active && B.Visible(e.at, cutoff) then B.VisibleAwards(scores[..n], cutoff) + [e]
               else B.VisibleAwards(scores[..n], cutoff)
  {
    assert B.VisibleAwards(scores[..|scores| - 1], cutoff) + [] == B.VisibleAwards(scores[..|scores| - 1], cutoff);
  }

  predicate OfTeam(awards: seq<ScoreEvent>, team: Id) {
    exists i :: 0 <= i < |awards| && awards[i].team == team
  }

  lemma {:induction false} AwardsAgree(scores: seq<ScoreEvent>, cutoff: Option<Time>, team: Id)
    ensures HasAward(ScoresThrough(scores, cutoff), team) <==> OfTeam(B.VisibleAwards(scores, cutoff), team)
  {
    if scores != [] {
      var n := |scores| - 1;
      AwardsAgree(scores[..n], cutoff, team);
      ScoresThroughSplits(scores, cutoff);
      VisibleAwardsSplits(scores, cutoff);
      AwardMore(ScoresThrough(scores[..n], cutoff), B.VisibleAwards(scores[..n], cutoff), scores[n], team);
      hide HasAward, OfTeam, ScoresThrough, B.VisibleAwards, B.Visible;
    }
  }

  lemma AwardMore(rows: seq<ScoreEvent>, awards: seq<ScoreEvent>, e: ScoreEvent, team: Id)
    ensures HasAward(rows + [e], team)
            <==> HasAward(rows, team) || (e.team == team && e.kind == Award && e.active)
    ensures OfTeam(awards + [e], team) <==> OfTeam(awards, team) || e.team == team
  {
    assert (rows + [e])[|rows|] == e && forall i :: 0 <= i < |rows| ==> (rows + [e])[i] == rows[i];
    assert (awards + [e])[|awards|] == e && forall i :: 0 <= i < |awards| ==> (awards + [e])[i] == awards[i];
  }

  /** The totals of the query under a cutoff: who is in them, and with what. */
  lemma TotalsAre(db: Db, cutoff: Option<Time>, team: Id)
    ensures var totals := F.Totals(db, cutoff, S.HalfEven);
            && (B.Listed(totals, team) <==>
                  HasSolve(Through(db.log.solves, cutoff), team, db.challenges)
                  || HasAward(ScoresThrough(db.log.scores, cutoff), team))
            && forall i :: 0 <= i < |totals| && totals[i].team == team ==>
                 totals[i].total
                 == Earned(Through(db.log.solves, cutoff), team, Through(db.log.solves, cutoff), db.challenges)
                    .Plus(B.Total(Awarded(ScoresThrough(db.log.scores, cutoff), team), 0, None))
  {
    hide B.TeamTotals, B.VisibleSolves, B.VisibleAwards, B.SolvesWorth, B.AwardsWorth, Earned, Awarded, Through,
         ScoresThrough, HasSolve, HasAward, B.SolveTotal, B.AwardTotal;
    B.StagedIsDirect(db.log.solves, db.log.scores, db.challenges, cutoff, S.HalfEven, team);
    VisibleAgrees(db.log.solves, db.challenges, cutoff, team);
    AwardsAgree(db.log.scores, cutoff, team);
    EarnedAgrees(db.log.solves, db.log.solves, team, db.challenges, cutoff);
    AwardedAgrees(db.log.scores, team, cutoff);
    var totals := F.Totals(db, cutoff, S.HalfEven);
    forall i | 0 <= i < |totals| && totals[i].team == team
      ensures totals[i].total
              == B.SolvesWorth(db.log.solves, db.log.solves, team, db.challenges, cutoff)
                 .Plus(B.Total(B.AwardsWorth(db.log.scores, team, cutoff), 0, None))
    {
      B.BoardIsSumOfPoints(db.log.solves, db.log.scores, db.challenges, cutoff, i);
    }
  }

  lemma EntriesAre(db: Db, cutoff: Option<Time>, e: B.Entry)
    requires cutoff == Cutoff(db.event, db.now)
    ensures e in F.PublicEntries(db, S.HalfEven)
            <==> IsEntry(db, Through(db.log.solves, cutoff), ScoresThrough(db.log.scores, cutoff), e)
  {
    TotalsAre(db, cutoff, e.team);
    hide F.Totals, Earned, Awarded, Through, ScoresThrough, HasSolve, HasAward, Cutoff;
    var totals := F.Totals(db, cutoff, S.HalfEven);
    if IsEntry(db, Through(db.log.solves, cutoff), ScoresThrough(db.log.scores, cutoff), e) {
      var i :| 0 <= i < |totals| && totals[i].team == e.team;
      assert e == B.Entry(totals[i].team, e.name, totals[i].total);
    }
  }

  /** While the board is not frozen, and once the event is over, it lists exactly the teams with a solve or an active
      award, each with the sum over all of them, whatever their stamps. */
  lemma FullBoard(db: Db, e: B.Entry)
    requires db.event.state != Frozen
    requires db.event.state == Live && db.event.freezeAt.Some? ==> db.now < db.event.freezeAt.value
    ensures e in F.PublicEntries(db, S.HalfEven) <==> IsEntry(db, db.log.solves, db.log.scores, e)
  {
    EntriesAre(db, None, e);
    hide IsEntry;
  }

  /** While it is frozen, it lists exactly those with a solve or award stamped at freeze_at or before, each with the
      sum over those, priced by the number of those. */
  lemma FrozenBoardShows(db: Db, e: B.Entry)
    requires db.event.freezeAt.Some?
    requires db.event.state == Frozen || (db.event.state == Live && db.event.freezeAt.value <= db.now)
    ensures var limit := db.event.freezeAt.value;
            e in F.PublicEntries(db, S.HalfEven)
            <==> IsEntry(db, UpTo(db.log.solves, limit), ScoresUpTo(db.log.scores, limit), e)
  {
    EntriesAre(db, db.event.freezeAt, e);
    hide IsEntry;
  }

  // ---------- the end of the event ----------

  lemma EndedEvent(db: Db, p: EventPatch, checked: Time)
    requires UpdateEvent(db, p, checked).1 == Done && p.state == Some(Ended)
    ensures var db' := UpdateEvent(db, p, checked).0;
            db'.event.state == Ended && db' == db.(event := db'.event, edited := db.now)
  {
    hide FreezeLocked, Participants, TimesOk, NewFreezeAt;
  }

  lemma {:induction false} AllVisible(rows: seq<Solve>, challenges: map<Id, Challenge>)
    requires forall i :: 0 <= i < |rows| ==> rows[i].challenge in challenges
    ensures B.VisibleSolves(rows, challenges, None) == rows
  {
    if rows != [] {
      AllVisible(rows[..|rows| - 1], challenges);
      assert rows == rows[..|rows| - 1] + [rows[|rows| - 1]];
    }
  }

  lemma SolvesOfMore(rows: seq<Solve>, v: Solve, team: Id)
    ensures B.SolvesOf(rows + [v], team) == B.SolvesOf(rows, team) + (if v.team == team then 1 else 0)
  {
    assert (rows + [v])[..|rows|] == rows;
  }

  predicate IsHidden(v: Solve, team: Id, limit: Time) {
    v.team == team && limit < v.at
  }

  lemma {:induction false} HiddenIsFewer(rows: seq<Solve>, team: Id, challenges: map<Id, Challenge>, limit: Time)
    ensures var shown := B.SolvesOf(B.VisibleSolves(rows, challenges, Some(limit)), team);
            && shown <= B.SolvesOf(rows, team)
            && ((exists i :: 0 <= i < |rows| && IsHidden(rows[i], team, limit)) ==> shown < B.SolvesOf(rows, team))
  {
    if rows != [] {
      var n := |rows| - 1;
      HiddenIsFewer(rows[..n], team, challenges, limit);
      B.VisibleSplits(rows, challenges, Some(limit));
      SolvesOfMore(B.VisibleSolves(rows[..n], challenges, Some(limit)), rows[n], team);
      SolvesOfMore(rows[..n], rows[n], team);
      assert rows == rows[..n] + [rows[n]];
      hide B.VisibleSolves, B.SolvesOf;
      if i :| 0 <= i < n && IsHidden(rows[i], team, limit) { assert rows[..n][i] == rows[i]; }
    }
  }

  /** The edit that ends the event brings the hidden rows onto the board: over all runs, a team with a solve stamped
      after the freeze is then listed with all its solves, which are more than the frozen board showed, and every entry
      is the sum over all rows. */
  lemma EndingReveals(start: Db, before: seq<Command>, p: EventPatch, checked: Time, i: nat)
    requires Bootstrapped(start) && TimelyRun(start, before)
    requires var db := Run(start, before);
             && UpdateEvent(db, p, checked).1 == Done && p.state == Some(Ended)
             && BoardFrozen(db.event, db.now) && i < |db.log.solves|
             && db.event.freezeAt.Some? && db.event.freezeAt.value < db.log.solves[i].at
    ensures var db := Run(start, before); var after := Step(db, DoUpdateEvent(p, checked));
            && (forall e :: e in F.PublicEntries(after, S.HalfEven) <==>
                  IsEntry(after, db.log.solves, db.log.scores, e))
            && exists e :: e in F.PublicEntries(after, S.HalfEven) && e.team == db.log.solves[i].team
                 && e.total.solves == B.SolvesOf(db.log.solves, e.team)
                 && forall shown :: shown in F.PublicEntries(db, S.HalfEven) && shown.team == e.team ==>
                      shown.total.solves < e.total.solves
  {
    hide Run, Bootstrapped, TimelyRun, UpdateEvent, F.PublicEntries, IsEntry, BoardFrozen, F.VisibleOn, Step;
    var db := Run(start, before);
    var c := DoUpdateEvent(p, checked);
    F.BootstrappedBoard(start);
    F.RunKeepsBoard(start, before);
    EndedStep(db, p, checked);
    RevealedRows(db, Step(db, c), i);
  }

  lemma EndedStep(db: Db, p: EventPatch, checked: Time)
    requires UpdateEvent(db, p, checked).1 == Done && p.state == Some(Ended)
    ensures var after := Step(db, DoUpdateEvent(p, checked));
            after.event.state == Ended && after == db.(event := after.event, edited := db.now)
  {
    EndedEvent(db, p, checked);
    hide UpdateEvent;
  }

  lemma RevealedRows(db: Db, after: Db, i: nat)
    requires F.BoardInv(db) && BoardFrozen(db.event, db.now) && i < |db.log.solves|
    requires db.event.freezeAt.Some? && db.event.freezeAt.value < db.log.solves[i].at
    requires after.event.state == Ended && after == db.(event := after.event, edited := db.now)
    ensures forall e :: e in F.PublicEntries(after, S.HalfEven) <==> IsEntry(after, db.log.solves, db.log.scores, e)
    ensures exists e :: e in F.PublicEntries(after, S.HalfEven) && e.team == db.log.solves[i].team
              && e.total.solves == B.SolvesOf(db.log.solves, e.team)
              && forall shown :: shown in F.PublicEntries(db, S.HalfEven) && shown.team == e.team ==>
                   shown.total.solves < e.total.solves
  {
    var team := db.log.solves[i].team;
    RowsOnBoards(db, after, i);
    SolverHasTeam(db, i);
    hide F.BoardInv, F.PublicEntries, IsEntry, F.VisibleOn, BoardFrozen, B.SolvesOf;
    forall e ensures e in F.PublicEntries(after, S.HalfEven) <==> IsEntry(after, db.log.solves, db.log.scores, e) {
      FullBoard(after, e);
    }
    var e := F.SolverIsListed(after, team, S.HalfEven);
    F.EntryCountsSolves(after, e, S.HalfEven);
    forall shown | shown in F.PublicEntries(db, S.HalfEven) && shown.team == team
      ensures shown.total.solves < e.total.solves
    {
      F.EntryCountsSolves(db, shown, S.HalfEven);
    }
  }

  lemma SolverHasTeam(db: Db, i: nat)
    requires F.BoardInv(db) && i < |db.log.solves|
    ensures db.log.solves[i].team in db.roster.teams
  {
    hide F.EventInv, TeamInv, C.GraphInv, Capped, SolvedOnce, WrongEarnsNothing;
    SolveHasSubmission(db.log, db.next, i);
  }

  lemma RowsOnBoards(db: Db, after: Db, i: nat)
    requires F.BoardInv(db) && BoardFrozen(db.event, db.now) && i < |db.log.solves|
    requires db.event.freezeAt.Some? && db.event.freezeAt.value < db.log.solves[i].at
    requires after.event.state == Ended && after == db.(event := after.event, edited := db.now)
    ensures var team := db.log.solves[i].team;
            && F.VisibleOn(after) == db.log.solves
            && B.SolvesOf(F.VisibleOn(db), team) < B.SolvesOf(db.log.solves, team)
  {
    hide F.EventInv, TeamInv, LogInv, C.GraphInv;
    SolvesAnchored(db);
    hide F.BoardInv, B.VisibleSolves, B.SolvesOf;
    AllVisible(db.log.solves, db.challenges);
    HiddenIsFewer(db.log.solves, db.log.solves[i].team, db.challenges, db.event.freezeAt.value);
    assert IsHidden(db.log.solves[i], db.log.solves[i].team, db.event.freezeAt.value);
  }
}
