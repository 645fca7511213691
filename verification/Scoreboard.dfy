/** public_scoreboard of backend/src/alpha/services.py: the staged SQL aggregate against a direct
    per-team sum, conservation of points, and the ranking. */
module Scoreboard {
  import opened Basics
  import opened Schema
  import opened Scoring
  import opened TopList

  const MAX_ENTRIES := 1000

  type Challenges = map<Id, Challenge>

  predicate Visible(at: Time, cutoff: Option<Time>) {
    cutoff.None? || at <= cutoff.value
  }

  // ---------- totals form a commutative monoid ----------

  datatype Total = Total(score: int, solves: int, last: Option<Time>) {
    function Plus(other: Total): Total {
      Total(score + other.score, solves + other.solves, Later(last, other.last))
    }
  }

  const Zero := Total(0, 0, None)

  /** SQL max, which ignores NULL. */
  function Later(a: Option<Time>, b: Option<Time>): Option<Time> {
    if a.None? then b else if b.None? then a else if a.value < b.value then b else a
  }

  datatype Contribution = Contribution(team: Id, total: Total)

  // ---------- the stages of the query ----------

  /** The rows the joins let through: known challenge, stamped by the cutoff. */
  function VisibleSolves(solves: seq<Solve>, challenges: Challenges, cutoff: Option<Time>): (r: seq<Solve>)
    ensures forall i :: 0 <= i < |r| ==> r[i].challenge in challenges && r[i] in solves && Visible(r[i].at, cutoff)
  {
    if solves == [] then []
    else
      var n := |solves| - 1;
      VisibleSolves(solves[..n], challenges, cutoff)
      + (if solves[n].challenge in challenges && Visible(solves[n].at, cutoff) then [solves[n]] else [])
  }

  function VisibleAwards(scores: seq<ScoreEvent>, cutoff: Option<Time>): seq<ScoreEvent> {
    if scores == [] then []
    else
      var n := |scores| - 1;
      VisibleAwards(scores[..n], cutoff)
      + (if scores[n].kind.Award? && scores[n].active && Visible(scores[n].at, cutoff) then [scores[n]] else [])
  }

  datatype CountRow = CountRow(challenge: Id, count: int)

  /** SELECT challenge_id, count(*) ... GROUP BY challenge_id */
  function CountUp(groups: seq<CountRow>, challenge: Id): seq<CountRow> {
    if groups == [] then [CountRow(challenge, 1)]
    else if groups[0].challenge == challenge then [CountRow(challenge, groups[0].count + 1)] + groups[1..]
    else [groups[0]] + CountUp(groups[1..], challenge)
  }

  function ChallengeCounts(visible: seq<Solve>): seq<CountRow> {
    if visible == [] then []
    else CountUp(ChallengeCounts(visible[..|visible| - 1]), visible[|visible| - 1].challenge)
  }

  /** The join with challenge_counts. */
  function JoinedCount(groups: seq<CountRow>, challenge: Id): int {
    if groups == [] then 0
    else if groups[0].challenge == challenge then groups[0].count
    else JoinedCount(groups[1..], challenge)
  }

  /** sum(...), count(...), max(...) GROUP BY team_id */
  function AddTo(groups: seq<Contribution>, c: Contribution): seq<Contribution> {
    if groups == [] then [c]
    else if groups[0].team == c.team then [Contribution(c.team, groups[0].total.Plus(c.total))] + groups[1..]
    else [groups[0]] + AddTo(groups[1..], c)
  }

  function GroupByTeam(rows: seq<Contribution>): seq<Contribution> {
    if rows == [] then [] else AddTo(GroupByTeam(rows[..|rows| - 1]), rows[|rows| - 1])
  }

  function SolveRow(s: Solve, challenges: Challenges, counts: seq<CountRow>, ties: TieRule): Contribution
    requires s.challenge in challenges
  {
    Contribution(s.team,
      Total(SqlPoints(challenges[s.challenge].scoring, JoinedCount(counts, s.challenge), ties), 1, Some(s.at)))
  }

  function SolveRows(
    visible: seq<Solve>, challenges: Challenges, counts: seq<CountRow>, ties: TieRule): (r: seq<Contribution>)
    requires forall i :: 0 <= i < |visible| ==> visible[i].challenge in challenges
    ensures |r| == |visible| && forall i :: 0 <= i < |r| ==> r[i].team == visible[i].team
  {
    if visible == [] then []
    else
      var n := |visible| - 1;
      SolveRows(visible[..n], challenges, counts, ties) + [SolveRow(visible[n], challenges, counts, ties)]
  }

  function AwardRows(awards: seq<ScoreEvent>): (r: seq<Contribution>)
    ensures |r| == |awards| && forall i :: 0 <= i < |r| ==> r[i].team == awards[i].team
  {
    if awards == [] then []
    else
      var n := |awards| - 1;
      AwardRows(awards[..n]) + [Contribution(awards[n].team, Total(awards[n].points, 0, None))]
  }

  /** team_totals: both aggregates, UNION ALL, and the regrouping. */
  function TeamTotals(
    solves: seq<Solve>, scores: seq<ScoreEvent>, challenges: Challenges, cutoff: Option<Time>, ties: TieRule)
    : seq<Contribution>
  {
    var visible := VisibleSolves(solves, challenges, cutoff);
    var solveAggregate := GroupByTeam(SolveRows(visible, challenges, ChallengeCounts(visible), ties));
    var awardAggregate := GroupByTeam(AwardRows(VisibleAwards(scores, cutoff)));
    GroupByTeam(solveAggregate + awardAggregate)
  }

  // ---------- the direct definition ----------

  /** How many visible solves a challenge has. */
  function SolveCount(visible: seq<Solve>, challenge: Id): nat {
    if visible == [] then 0
    else
      var n := |visible| - 1;
      SolveCount(visible[..n], challenge) + (if visible[n].challenge == challenge then 1 else 0)
  }

  /** What one visible solve is worth on this board. */
  function Worth(challenge: Id, visible: seq<Solve>, challenges: Challenges, ties: TieRule): int
    requires challenge in challenges
  {
    SqlPoints(challenges[challenge].scoring, SolveCount(visible, challenge), ties)
  }

  /** A team's score, straight from the rows: the worth of each of its visible solves ... */
  function SolveTotal(rows: seq<Solve>, team: Id, visible: seq<Solve>, challenges: Challenges, ties: TieRule): Total
    requires forall i :: 0 <= i < |rows| ==> rows[i].challenge in challenges
  {
    if rows == [] then Zero
    else
      var n := |rows| - 1;
      var before := SolveTotal(rows[..n], team, visible, challenges, ties);
      if rows[n].team == team
      then before.Plus(Total(Worth(rows[n].challenge, visible, challenges, ties), 1, Some(rows[n].at)))
      else before
  }

  /** ... and its visible awards. */
  function AwardTotal(awards: seq<ScoreEvent>, team: Id): int {
    if awards == [] then 0
    else
      var n := |awards| - 1;
      AwardTotal(awards[..n], team) + (if awards[n].team == team then awards[n].points else 0)
  }

  // ---------- grouping loses nothing ----------

  predicate Listed(rows: seq<Contribution>, team: Id) {
    exists i :: 0 <= i < |rows| && rows[i].team == team
  }

  predicate TeamsDistinct(rows: seq<Contribution>) {
    forall i, j :: 0 <= i < j < |rows| ==> rows[i].team != rows[j].team
  }

  function TotalOf(rows: seq<Contribution>, team: Id): Total {
    if rows == [] then Zero
    else if rows[0].team == team then rows[0].total.Plus(TotalOf(rows[1..], team))
    else TotalOf(rows[1..], team)
  }

  function ScoreSum(rows: seq<Contribution>): int {
    if rows == [] then 0 else rows[0].total.score + ScoreSum(rows[1..])
  }

  lemma PlusLaws(a: Total, b: Total, c: Total)
    ensures a.Plus(b) == b.Plus(a) && a.Plus(b).Plus(c) == a.Plus(b.Plus(c)) && a.Plus(b).Plus(c) == a.Plus(c).Plus(b)
  {
  }

  lemma PlusZero(a: Total)
    ensures a.Plus(Zero) == a && Zero.Plus(a) == a
  {
  }

  lemma TotalOfFirst(first: Contribution, rest: seq<Contribution>, team: Id)
    ensures TotalOf([first] + rest, team)
            == if first.team == team then first.total.Plus(TotalOf(rest, team)) else TotalOf(rest, team)
    ensures ScoreSum([first] + rest) == first.total.score + ScoreSum(rest)
  {
    assert ([first] + rest)[1..] == rest;
  }

  lemma {:induction false} AddToTotals(groups: seq<Contribution>, c: Contribution, team: Id)
    ensures TotalOf(AddTo(groups, c), team)
            == if c.team == team then TotalOf(groups, team).Plus(c.total) else TotalOf(groups, team)
  {
    if groups == [] {
      PlusZero(c.total);
    } else {
      var first, rest := groups[0], TotalOf(groups[1..], team);
      if first.team == c.team {
        TotalOfFirst(Contribution(c.team, first.total.Plus(c.total)), groups[1..], team);
        PlusLaws(first.total, c.total, rest);
      } else {
        TotalOfFirst(first, AddTo(groups[1..], c), team);
        AddToTotals(groups[1..], c, team);
      }
    }
  }

  lemma {:induction false} AddToSum(groups: seq<Contribution>, c: Contribution)
    ensures ScoreSum(AddTo(groups, c)) == ScoreSum(groups) + c.total.score
  {
    if groups != [] {
      var first := groups[0];
      if first.team == c.team {
        TotalOfFirst(Contribution(c.team, first.total.Plus(c.total)), groups[1..], 0);
      } else {
        TotalOfFirst(first, AddTo(groups[1..], c), 0);
        AddToSum(groups[1..], c);
      }
    }
  }

  lemma {:induction false} AddToTeams(groups: seq<Contribution>, c: Contribution)
    requires TeamsDistinct(groups)
    ensures TeamsDistinct(AddTo(groups, c))
    ensures forall t :: Listed(AddTo(groups, c), t) <==> Listed(groups, t) || t == c.team
  {
    var r := AddTo(groups, c);
    if groups == [] {
      assert r[0].team == c.team;
    } else if groups[0].team == c.team {
      assert forall i :: 0 <= i < |r| ==> r[i].team == groups[i].team;
      assert forall i :: 0 <= i < |groups| ==> groups[i].team == r[i].team;
    } else {
      var tail := AddTo(groups[1..], c);
      AddToTeams(groups[1..], c);
      assert forall i :: 1 <= i < |r| ==> r[i] == tail[i - 1];
      assert forall i :: 1 <= i < |groups| ==> groups[i] == groups[1..][i - 1];
      forall t ensures Listed(r, t) <==> Listed(groups, t) || t == c.team {
        if Listed(tail, t) { var i :| 0 <= i < |tail| && tail[i].team == t; assert r[i + 1].team == t; }
        if Listed(groups[1..], t) {
          var i :| 0 <= i < |groups[1..]| && groups[1..][i].team == t;
          assert groups[i + 1].team == t;
        }
        if groups[0].team == t { assert r[0].team == t; }
      }
      forall j | 1 <= j < |r| ensures r[0].team != r[j].team {
        assert Listed(tail, r[j].team);
        if r[j].team != c.team {
          var i :| 0 <= i < |groups[1..]| && groups[1..][i].team == r[j].team;
          assert groups[i + 1].team == r[j].team;
        }
      }
    }
  }

  lemma {:induction false} TotalOfConcat(a: seq<Contribution>, b: seq<Contribution>, team: Id)
    ensures TotalOf(a + b, team) == TotalOf(a, team).Plus(TotalOf(b, team))
    ensures ScoreSum(a + b) == ScoreSum(a) + ScoreSum(b)
    decreases |a|
  {
    if a == [] {
      assert a + b == b;
      PlusZero(TotalOf(b, team));
    } else {
      assert a + b == [a[0]] + (a[1..] + b);
      TotalOfFirst(a[0], a[1..] + b, team);
      TotalOfConcat(a[1..], b, team);
      PlusLaws(a[0].total, TotalOf(a[1..], team), TotalOf(b, team));
    }
  }

  lemma TotalOfAppend(rows: seq<Contribution>, c: Contribution, team: Id)
    ensures TotalOf(rows + [c], team)
            == if c.team == team then TotalOf(rows, team).Plus(c.total) else TotalOf(rows, team)
    ensures ScoreSum(rows + [c]) == ScoreSum(rows) + c.total.score
  {
    TotalOfConcat(rows, [c], team);
    TotalOfFirst(c, [], team);
    PlusZero(c.total);
    PlusZero(TotalOf(rows, team));
    assert [c] + [] == [c];
  }

  /** GROUP BY keeps every team's total, lists each team once and drops none. */
  lemma {:induction false} GroupKeepsTotals(rows: seq<Contribution>, team: Id)
    ensures var groups := GroupByTeam(rows);
            && TotalOf(groups, team) == TotalOf(rows, team) && ScoreSum(groups) == ScoreSum(rows)
            && TeamsDistinct(groups) && (Listed(groups, team) <==> Listed(rows, team))
  {
    if rows != [] {
      var n := |rows| - 1;
      GroupKeepsTotals(rows[..n], team);
      assert rows == rows[..n] + [rows[n]];
      AddToTotals(GroupByTeam(rows[..n]), rows[n], team);
      AddToSum(GroupByTeam(rows[..n]), rows[n]);
      AddToTeams(GroupByTeam(rows[..n]), rows[n]);
      TotalOfAppend(rows[..n], rows[n], team);
      if Listed(rows, team) && rows[n].team != team {
        var i :| 0 <= i < |rows| && rows[i].team == team;
        assert rows[..n][i].team == team;
      }
    }
  }

  lemma {:induction false} DistinctRowIsTotal(groups: seq<Contribution>, i: nat)
    requires TeamsDistinct(groups) && i < |groups|
    ensures TotalOf(groups, groups[i].team) == groups[i].total
  {
    if i == 0 {
      NotListed(groups[1..], groups[0].team);
      PlusZero(groups[0].total);
    } else {
      assert groups[1..][i - 1] == groups[i];
      DistinctRowIsTotal(groups[1..], i - 1);
    }
  }

  lemma {:induction false} NotListed(rows: seq<Contribution>, team: Id)
    requires forall i :: 0 <= i < |rows| ==> rows[i].team != team
    ensures TotalOf(rows, team) == Zero
  {
    if rows != [] { NotListed(rows[1..], team); }
  }

  // ---------- the joined counts ----------

  lemma {:induction false} CountUpJoins(groups: seq<CountRow>, challenge: Id, other: Id)
    ensures JoinedCount(CountUp(groups, challenge), other)
            == JoinedCount(groups, other) + (if other == challenge then 1 else 0)
  {
    if groups != [] && groups[0].challenge != challenge {
      var kept := [groups[0]] + CountUp(groups[1..], challenge);
      assert kept[1..] == CountUp(groups[1..], challenge);
      CountUpJoins(groups[1..], challenge, other);
    }
  }

  lemma {:induction false} CountsAreSolveCounts(visible: seq<Solve>, challenge: Id)
    ensures JoinedCount(ChallengeCounts(visible), challenge) == SolveCount(visible, challenge)
  {
    if visible != [] {
      var n := |visible| - 1;
      CountsAreSolveCounts(visible[..n], challenge);
      CountUpJoins(ChallengeCounts(visible[..n]), visible[n].challenge, challenge);
    }
  }

  // ---------- staged equals direct ----------

  lemma {:induction false} SolveRowsTotal(
    rows: seq<Solve>, team: Id, visible: seq<Solve>, challenges: Challenges, ties: TieRule)
    requires forall i :: 0 <= i < |rows| ==> rows[i].challenge in challenges
    ensures TotalOf(SolveRows(rows, challenges, ChallengeCounts(visible), ties), team)
            == SolveTotal(rows, team, visible, challenges, ties)
  {
    if rows != [] {
      var n := |rows| - 1;
      var counts := ChallengeCounts(visible);
      SolveRowsTotal(rows[..n], team, visible, challenges, ties);
      var last := SolveRow(rows[n], challenges, counts, ties);
      TotalOfAppend(SolveRows(rows[..n], challenges, counts, ties), last, team);
      CountsAreSolveCounts(visible, rows[n].challenge);
    }
  }

  lemma {:induction false} AwardRowsTotal(awards: seq<ScoreEvent>, team: Id)
    ensures TotalOf(AwardRows(awards), team) == Total(AwardTotal(awards, team), 0, None)
  {
    if awards != [] {
      var n := |awards| - 1;
      AwardRowsTotal(awards[..n], team);
      var last := Contribution(awards[n].team, Total(awards[n].points, 0, None));
      TotalOfAppend(AwardRows(awards[..n]), last, team);
    }
  }

  ghost predicate Scores(team: Id, visible: seq<Solve>, awards: seq<ScoreEvent>) {
    (exists i :: 0 <= i < |visible| && visible[i].team == team)
      || (exists i :: 0 <= i < |awards| && awards[i].team == team)
  }

  /** Both aggregates, regrouped, list the same teams with the same totals as their plain concatenation. */
  lemma RegroupedUnion(a: seq<Contribution>, b: seq<Contribution>, team: Id)
    ensures var totals := GroupByTeam(GroupByTeam(a) + GroupByTeam(b));
            && TeamsDistinct(totals)
            && (Listed(totals, team) <==> Listed(a, team) || Listed(b, team))
            && TotalOf(totals, team) == TotalOf(a, team).Plus(TotalOf(b, team))
            && ScoreSum(totals) == ScoreSum(a) + ScoreSum(b)
  {
    GroupKeepsTotals(a, team);
    GroupKeepsTotals(b, team);
    GroupKeepsTotals(GroupByTeam(a) + GroupByTeam(b), team);
    TotalOfConcat(GroupByTeam(a), GroupByTeam(b), team);
    ListedConcat(GroupByTeam(a), GroupByTeam(b), team);
  }

  /** The staged query answers, for every team with a visible solve or award and for no other, exactly
      one row: the direct sum over its rows. */
  lemma StagedIsDirect(
    solves: seq<Solve>, scores: seq<ScoreEvent>, challenges: Challenges, cutoff: Option<Time>, ties: TieRule, team: Id)
    ensures var totals := TeamTotals(solves, scores, challenges, cutoff, ties);
            var visible := VisibleSolves(solves, challenges, cutoff); var awards := VisibleAwards(scores, cutoff);
            && TeamsDistinct(totals)
            && (Listed(totals, team) <==> Scores(team, visible, awards))
            && forall i :: 0 <= i < |totals| && totals[i].team == team ==>
                 totals[i].total
                   == SolveTotal(visible, team, visible, challenges, ties)
                      .Plus(Total(AwardTotal(awards, team), 0, None))
  {
    var visible := VisibleSolves(solves, challenges, cutoff);
    var awards := VisibleAwards(scores, cutoff);
    var a := SolveRows(visible, challenges, ChallengeCounts(visible), ties);
    var b := AwardRows(awards);
    RegroupedUnion(a, b, team);
    SolveRowsTotal(visible, team, visible, challenges, ties);
    AwardRowsTotal(awards, team);
    var totals := GroupByTeam(GroupByTeam(a) + GroupByTeam(b));
    forall i | 0 <= i < |totals| && totals[i].team == team ensures totals[i].total == TotalOf(totals, team) {
      DistinctRowIsTotal(totals, i);
    }
    ListedIsScores(visible, awards, challenges, ties, team);
  }

  lemma ListedIsScores(visible: seq<Solve>, awards: seq<ScoreEvent>, challenges: Challenges, ties: TieRule, team: Id)
    requires forall i :: 0 <= i < |visible| ==> visible[i].challenge in challenges
    ensures var a := SolveRows(visible, challenges, ChallengeCounts(visible), ties); var b := AwardRows(awards);
            Listed(a, team) || Listed(b, team) <==> Scores(team, visible, awards)
  {
    var a := SolveRows(visible, challenges, ChallengeCounts(visible), ties);
    var b := AwardRows(awards);
    if i :| 0 <= i < |visible| && visible[i].team == team { assert a[i].team == team; }
    if i :| 0 <= i < |awards| && awards[i].team == team { assert b[i].team == team; }
    if i :| 0 <= i < |a| && a[i].team == team { assert visible[i].team == team; }
    if i :| 0 <= i < |b| && b[i].team == team { assert awards[i].team == team; }
  }

  lemma ListedConcat(a: seq<Contribution>, b: seq<Contribution>, team: Id)
    ensures Listed(a + b, team) <==> Listed(a, team) || Listed(b, team)
  {
    if Listed(a, team) { var i :| 0 <= i < |a| && a[i].team == team; assert (a + b)[i].team == team; }
    if Listed(b, team) { var i :| 0 <= i < |b| && b[i].team == team; assert (a + b)[|a| + i].team == team; }
  }

  /** How many of these solves are the team's. */
  function SolvesOf(rows: seq<Solve>, team: Id): nat {
    if rows == [] then 0
    else var n := |rows| - 1; SolvesOf(rows[..n], team) + (if rows[n].team == team then 1 else 0)
  }

  lemma {:induction false} SolvesAreCounted(
    rows: seq<Solve>, team: Id, visible: seq<Solve>, challenges: Challenges, ties: TieRule)
    requires forall i :: 0 <= i < |rows| ==> rows[i].challenge in challenges
    ensures SolveTotal(rows, team, visible, challenges, ties).solves == SolvesOf(rows, team)
  {
    hide Worth;
    if rows != [] { SolvesAreCounted(rows[..|rows| - 1], team, visible, challenges, ties); }
  }

  lemma {:induction false} SolverHasRow(rows: seq<Solve>, team: Id) returns (i: nat)
    requires SolvesOf(rows, team) > 0
    ensures i < |rows| && rows[i].team == team
  {
    i := |rows| - 1;
    if rows[i].team != team { i := SolverHasRow(rows[..i], team); }
  }

  // ---------- the same, straight from the tables and in points of the Python function ----------

  /** How many solves of a challenge a board with this cutoff knows. */
  function KnownSolves(solves: seq<Solve>, challenge: Id, cutoff: Option<Time>): nat {
    if solves == [] then 0
    else
      var n := |solves| - 1;
      KnownSolves(solves[..n], challenge, cutoff)
        + (if solves[n].challenge == challenge && Visible(solves[n].at, cutoff) then 1 else 0)
  }

  /** challenge_points of each solve the team has in `rows`, counted over all solves. */
  function SolvesWorth(
    rows: seq<Solve>, solves: seq<Solve>, team: Id, challenges: Challenges, cutoff: Option<Time>): Total
  {
    if rows == [] then Zero
    else
      var n := |rows| - 1;
      var before := SolvesWorth(rows[..n], solves, team, challenges, cutoff);
      if rows[n].team == team && rows[n].challenge in challenges && Visible(rows[n].at, cutoff) then
        var points :=
          ChallengePoints(challenges[rows[n].challenge].scoring, KnownSolves(solves, rows[n].challenge, cutoff));
        before.Plus(Total(points, 1, Some(rows[n].at)))
      else before
  }

  /** The team's active awards. */
  function AwardsWorth(scores: seq<ScoreEvent>, team: Id, cutoff: Option<Time>): int {
    if scores == [] then 0
    else
      var n := |scores| - 1;
      AwardsWorth(scores[..n], team, cutoff)
      + (if scores[n].team == team && scores[n].kind == Award && scores[n].active && Visible(scores[n].at, cutoff)
         then scores[n].points else 0)
  }

  lemma OneMoreSolve(visible: seq<Solve>, v: Solve, challenge: Id)
    ensures SolveCount(visible + [v], challenge)
            == SolveCount(visible, challenge) + (if v.challenge == challenge then 1 else 0)
  {
    assert (visible + [v])[..|visible|] == visible;
  }

  lemma OneMoreTotal(rows: seq<Solve>, v: Solve, team: Id, visible: seq<Solve>, challenges: Challenges)
    requires v.challenge in challenges && forall i :: 0 <= i < |rows| ==> rows[i].challenge in challenges
    ensures SolveTotal(rows + [v], team, visible, challenges, HalfEven)
            == if v.team != team then SolveTotal(rows, team, visible, challenges, HalfEven)
               else SolveTotal(rows, team, visible, challenges, HalfEven).Plus(
                      Total(Worth(v.challenge, visible, challenges, HalfEven), 1, Some(v.at)))
  {
    hide Worth, SolveCount;
    assert (rows + [v])[..|rows|] == rows;
  }

  /** One row more for the board, or not. */
  lemma VisibleSplits(rows: seq<Solve>, challenges: Challenges, cutoff: Option<Time>)
    requires rows != []
    ensures var n := |rows| - 1;
            VisibleSolves(rows, challenges, cutoff)
            == if rows[n].challenge in challenges && Visible(rows[n].at, cutoff)
              then VisibleSolves(rows[..n], challenges, cutoff) + [rows[n]]
               else VisibleSolves(rows[..n], challenges, cutoff)
  {
    assert VisibleSolves(rows[..|rows| - 1], challenges, cutoff) + []
           == VisibleSolves(rows[..|rows| - 1], challenges, cutoff);
  }

  lemma {:induction false} CountsAreKnown(
    solves: seq<Solve>, challenge: Id, challenges: Challenges, cutoff: Option<Time>)
    requires challenge in challenges
    ensures SolveCount(VisibleSolves(solves, challenges, cutoff), challenge) == KnownSolves(solves, challenge, cutoff)
  {
    if solves != [] {
      var n := |solves| - 1;
      CountsAreKnown(solves[..n], challenge, challenges, cutoff);
      VisibleSplits(solves, challenges, cutoff);
      OneMoreSolve(VisibleSolves(solves[..n], challenges, cutoff), solves[n], challenge);
    }
  }

  lemma {:induction false} KnownIsPositive(solves: seq<Solve>, i: nat, cutoff: Option<Time>)
    requires i < |solves| && Visible(solves[i].at, cutoff)
    ensures KnownSolves(solves, solves[i].challenge, cutoff) >= 1
  {
    var n := |solves| - 1;
    if i < n { KnownIsPositive(solves[..n], i, cutoff); }
  }

  /** What the query pays for a solve it shows is challenge_points. */
  lemma WorthIsPoints(solves: seq<Solve>, i: nat, challenges: Challenges, cutoff: Option<Time>)
    requires i < |solves| && solves[i].challenge in challenges && Visible(solves[i].at, cutoff)
    ensures var c := solves[i].challenge;
            Worth(c, VisibleSolves(solves, challenges, cutoff), challenges, HalfEven)
            == ChallengePoints(challenges[c].scoring, KnownSolves(solves, c, cutoff))
  {
    hide SqlPoints, ChallengePoints;
    CountsAreKnown(solves, solves[i].challenge, challenges, cutoff);
    KnownIsPositive(solves, i, cutoff);
    SqlAgreesWithPython(challenges[solves[i].challenge].scoring, KnownSolves(solves, solves[i].challenge, cutoff));
  }

  lemma {:induction false} SolvesAreWorth(
    rows: seq<Solve>, solves: seq<Solve>, team: Id, challenges: Challenges, cutoff: Option<Time>)
    requires rows <= solves
    ensures SolveTotal(
              VisibleSolves(rows, challenges, cutoff), team,
              VisibleSolves(solves, challenges, cutoff), challenges, HalfEven)
            == SolvesWorth(rows, solves, team, challenges, cutoff)
  {
    hide Worth, ChallengePoints, KnownSolves, VisibleSolves;
    if rows == [] {
      NothingVisible(challenges, cutoff);
    } else {
      var n := |rows| - 1;
      SolvesAreWorth(rows[..n], solves, team, challenges, cutoff);
      VisibleSplits(rows, challenges, cutoff);
      if rows[n].challenge in challenges && Visible(rows[n].at, cutoff) {
        var visible := VisibleSolves(solves, challenges, cutoff);
        OneMoreTotal(VisibleSolves(rows[..n], challenges, cutoff), rows[n], team, visible, challenges);
        assert solves[n] == rows[n];
        WorthIsPoints(solves, n, challenges, cutoff);
      }
    }
  }

  lemma NothingVisible(challenges: Challenges, cutoff: Option<Time>)
    ensures VisibleSolves([], challenges, cutoff) == []
  {
  }

  lemma {:induction false} AwardsAreWorth(scores: seq<ScoreEvent>, team: Id, cutoff: Option<Time>)
    ensures AwardTotal(VisibleAwards(scores, cutoff), team) == AwardsWorth(scores, team, cutoff)
  {
    if scores != [] {
      var n := |scores| - 1;
      AwardsAreWorth(scores[..n], team, cutoff);
      var before := VisibleAwards(scores[..n], cutoff);
      assert (before + [scores[n]])[..|before|] == before;
      assert before + [] == before;
    }
  }

  /** Rounding halves to even, the board gives every team it lists the sum of challenge_points over its solves,
      priced by the solves the board knows, plus its active awards. */
  lemma BoardIsSumOfPoints(
    solves: seq<Solve>, scores: seq<ScoreEvent>, challenges: Challenges, cutoff: Option<Time>, i: nat)
    requires i < |TeamTotals(solves, scores, challenges, cutoff, HalfEven)|
    ensures var row := TeamTotals(solves, scores, challenges, cutoff, HalfEven)[i];
            row.total == SolvesWorth(solves, solves, row.team, challenges, cutoff)
                         .Plus(Total(AwardsWorth(scores, row.team, cutoff), 0, None))
  {
    hide TeamTotals, VisibleSolves, VisibleAwards, SolveTotal, AwardTotal;
    var team := TeamTotals(solves, scores, challenges, cutoff, HalfEven)[i].team;
    StagedIsDirect(solves, scores, challenges, cutoff, HalfEven, team);
    SolvesAreWorth(solves, solves, team, challenges, cutoff);
    AwardsAreWorth(scores, team, cutoff);
  }

  // ---------- conservation ----------

  /** Sum over the challenges of count times worth. */
  function CountedWorth(groups: seq<CountRow>, price: Id -> int): int {
    if groups == [] then 0 else groups[0].count * price(groups[0].challenge) + CountedWorth(groups[1..], price)
  }

  function PointSum(awards: seq<ScoreEvent>): int {
    if awards == [] then 0 else PointSum(awards[..|awards| - 1]) + awards[|awards| - 1].points
  }

  lemma {:induction false} CountUpWorth(groups: seq<CountRow>, challenge: Id, price: Id -> int)
    ensures CountedWorth(CountUp(groups, challenge), price) == CountedWorth(groups, price) + price(challenge)
  {
    if groups == [] {
      assert CountUp(groups, challenge)[1..] == [];
    } else if groups[0].challenge == challenge {
      var merged := [CountRow(challenge, groups[0].count + 1)] + groups[1..];
      assert merged[1..] == groups[1..];
      assert (groups[0].count + 1) * price(challenge) == groups[0].count * price(challenge) + price(challenge);
    } else {
      var kept := [groups[0]] + CountUp(groups[1..], challenge);
      assert kept[1..] == CountUp(groups[1..], challenge);
      CountUpWorth(groups[1..], challenge, price);
    }
  }

  lemma {:induction false} SolveRowsSum(
    rows: seq<Solve>, visible: seq<Solve>, challenges: Challenges, ties: TieRule, price: Id -> int)
    requires forall i :: 0 <= i < |rows| ==> rows[i].challenge in challenges
    requires forall c :: c in challenges ==> price(c) == Worth(c, visible, challenges, ties)
    ensures ScoreSum(SolveRows(rows, challenges, ChallengeCounts(visible), ties))
            == CountedWorth(ChallengeCounts(rows), price)
  {
    if rows != [] {
      var n := |rows| - 1;
      var counts := ChallengeCounts(visible);
      SolveRowsSum(rows[..n], visible, challenges, ties, price);
      var last := SolveRow(rows[n], challenges, counts, ties);
      TotalOfAppend(SolveRows(rows[..n], challenges, counts, ties), last, 0);
      CountsAreSolveCounts(visible, rows[n].challenge);
      CountUpWorth(ChallengeCounts(rows[..n]), rows[n].challenge, price);
    }
  }

  lemma {:induction false} AwardRowsSum(awards: seq<ScoreEvent>)
    ensures ScoreSum(AwardRows(awards)) == PointSum(awards)
  {
    if awards != [] {
      var n := |awards| - 1;
      AwardRowsSum(awards[..n]);
      var last := Contribution(awards[n].team, Total(awards[n].points, 0, None));
      TotalOfAppend(AwardRows(awards[..n]), last, 0);
    }
  }

  /** The query's grouping lists no challenge twice, and each with its number of rows. */
  lemma {:induction false} CountsListOnce(visible: seq<Solve>)
    ensures var groups := ChallengeCounts(visible);
            && (forall i, j :: 0 <= i < j < |groups| ==> groups[i].challenge != groups[j].challenge)
            && (forall i :: 0 <= i < |groups| ==> groups[i].count == SolveCount(visible, groups[i].challenge))
            && (forall k :: 0 <= k < |visible| ==>
                  exists i :: 0 <= i < |groups| && groups[i].challenge == visible[k].challenge)
  {
    if visible != [] {
      var n := |visible| - 1;
      CountsListOnce(visible[..n]);
      CountUpKeys(ChallengeCounts(visible[..n]), visible[n].challenge);
      var groups := ChallengeCounts(visible);
      forall i | 0 <= i < |groups| ensures groups[i].count == SolveCount(visible, groups[i].challenge) {
        CountsAreSolveCounts(visible, groups[i].challenge);
        JoinedIsListed(groups, i);
      }
      forall k | 0 <= k < |visible|
        ensures exists i :: 0 <= i < |groups| && groups[i].challenge == visible[k].challenge
      {
        if k < n { assert visible[k] == visible[..n][k]; }
      }
    }
  }

  lemma {:induction false} CountUpKeys(groups: seq<CountRow>, challenge: Id)
    requires forall i, j :: 0 <= i < j < |groups| ==> groups[i].challenge != groups[j].challenge
    ensures var up := CountUp(groups, challenge);
            && |groups| <= |up| && (forall i :: 0 <= i < |groups| ==> up[i].challenge == groups[i].challenge)
            && (forall i, j :: 0 <= i < j < |up| ==> up[i].challenge != up[j].challenge)
            && (exists i :: 0 <= i < |up| && up[i].challenge == challenge)
            && (forall j :: 0 <= j < |up| ==> up[j].challenge == challenge || j < |groups|)
  {
    var up := CountUp(groups, challenge);
    if groups == [] {
      assert up[0].challenge == challenge;
    } else if groups[0].challenge == challenge {
      assert up[0].challenge == challenge;
    } else {
      var rest := CountUp(groups[1..], challenge);
      CountUpKeys(groups[1..], challenge);
      assert forall i :: 1 <= i < |up| ==> up[i] == rest[i - 1];
      assert forall i :: 1 <= i < |groups| ==> groups[i] == groups[1..][i - 1];
      var at :| 0 <= at < |rest| && rest[at].challenge == challenge;
      assert up[at + 1].challenge == challenge;
    }
  }

  lemma {:induction false} JoinedIsListed(groups: seq<CountRow>, i: nat)
    requires i < |groups| && forall i, j :: 0 <= i < j < |groups| ==> groups[i].challenge != groups[j].challenge
    ensures JoinedCount(groups, groups[i].challenge) == groups[i].count
  {
    if i > 0 {
      assert groups[1..][i - 1] == groups[i];
      JoinedIsListed(groups[1..], i - 1);
    }
  }

  /** Sum, over the listed challenges, of the number of solves the board knows times the price. */
  function WorthOver(order: seq<Id>, solves: seq<Solve>, cutoff: Option<Time>, price: Id -> int): int {
    if order == [] then 0
    else
      var n := |order| - 1;
      WorthOver(order[..n], solves, cutoff, price) + KnownSolves(solves, order[n], cutoff) * price(order[n])
  }

  /** The awards a board with this cutoff knows. */
  function KnownAwards(scores: seq<ScoreEvent>, cutoff: Option<Time>): int {
    if scores == [] then 0
    else
      var n := |scores| - 1;
      KnownAwards(scores[..n], cutoff)
      + (if scores[n].kind == Award && scores[n].active && Visible(scores[n].at, cutoff) then scores[n].points else 0)
  }

  ghost predicate ListsOnce(order: seq<Id>, challenges: Challenges) {
    && (forall i, j :: 0 <= i < j < |order| ==> order[i] != order[j])
    && (forall c :: c in order <==> c in challenges)
  }

  lemma {:induction false} NothingKnown(order: seq<Id>, cutoff: Option<Time>, price: Id -> int)
    ensures WorthOver(order, [], cutoff, price) == 0
  {
    if order != [] { NothingKnown(order[..|order| - 1], cutoff, price); }
  }

  lemma NothingCounted(price: Id -> int)
    ensures CountedWorth([], price) == 0
  {
  }

  lemma OneMoreKnown(solves: seq<Solve>, v: Solve, challenge: Id, cutoff: Option<Time>, price: int)
    ensures KnownSolves(solves + [v], challenge, cutoff) * price
            == KnownSolves(solves, challenge, cutoff) * price
               + (if v.challenge == challenge && Visible(v.at, cutoff) then price else 0)
  {
    assert (solves + [v])[..|solves|] == solves;
    var known := KnownSolves(solves, challenge, cutoff);
    assert (known + 1) * price == known * price + price;
  }

  /** One more solve adds the price of its challenge, once. */
  lemma {:induction false} OneMoreWorth(
    order: seq<Id>, solves: seq<Solve>, v: Solve, cutoff: Option<Time>, price: Id -> int)
    requires forall i, j :: 0 <= i < j < |order| ==> order[i] != order[j]
    ensures WorthOver(order, solves + [v], cutoff, price)
            == WorthOver(order, solves, cutoff, price)
               + (if v.challenge in order && Visible(v.at, cutoff) then price(v.challenge) else 0)
    decreases |order|
  {
    hide KnownSolves, Visible;
    if order != [] {
      var n := |order| - 1;
      OneMoreWorth(order[..n], solves, v, cutoff, price);
      OneMoreKnown(solves, v, order[n], cutoff, price(order[n]));
      assert order == order[..n] + [order[n]];
    }
  }

  lemma {:induction false} CountedIsWorth(
    order: seq<Id>, solves: seq<Solve>, challenges: Challenges, cutoff: Option<Time>, price: Id -> int)
    requires ListsOnce(order, challenges)
    ensures CountedWorth(ChallengeCounts(VisibleSolves(solves, challenges, cutoff)), price)
            == WorthOver(order, solves, cutoff, price)
  {
    hide CountedWorth, WorthOver, CountUp;
    if solves == [] {
      NothingKnown(order, cutoff, price);
      NothingCounted(price);
    } else {
      var n := |solves| - 1;
      var before := VisibleSolves(solves[..n], challenges, cutoff);
      CountedIsWorth(order, solves[..n], challenges, cutoff, price);
      VisibleSplits(solves, challenges, cutoff);
      assert solves == solves[..n] + [solves[n]];
      OneMoreWorth(order, solves[..n], solves[n], cutoff, price);
      if solves[n].challenge in challenges && Visible(solves[n].at, cutoff) {
        assert (before + [solves[n]])[..|before|] == before;
        CountUpWorth(ChallengeCounts(before), solves[n].challenge, price);
      }
    }
  }

  lemma {:induction false} AwardsAreKnown(scores: seq<ScoreEvent>, cutoff: Option<Time>)
    ensures PointSum(VisibleAwards(scores, cutoff)) == KnownAwards(scores, cutoff)
  {
    if scores != [] {
      var n := |scores| - 1;
      AwardsAreKnown(scores[..n], cutoff);
      var before := VisibleAwards(scores[..n], cutoff);
      assert (before + [scores[n]])[..|before|] == before;
      assert before + [] == before;
    }
  }

  /** No point is lost or invented: over all teams the scores add up, read straight from the tables, to the number of
      solves known times the points of the challenge, over the challenges each taken once, plus the awards known. */
  lemma PointsAreConserved(
    solves: seq<Solve>, scores: seq<ScoreEvent>, challenges: Challenges, cutoff: Option<Time>, ties: TieRule,
    order: seq<Id>, price: Id -> int)
    requires ListsOnce(order, challenges)
    requires forall c :: c in challenges ==>
               price(c) == SqlPoints(challenges[c].scoring, KnownSolves(solves, c, cutoff), ties)
    ensures ScoreSum(TeamTotals(solves, scores, challenges, cutoff, ties))
            == WorthOver(order, solves, cutoff, price) + KnownAwards(scores, cutoff)
  {
    var visible := VisibleSolves(solves, challenges, cutoff);
    var a := SolveRows(visible, challenges, ChallengeCounts(visible), ties);
    var b := AwardRows(VisibleAwards(scores, cutoff));
    RegroupedUnion(a, b, 0);
    forall c | c in challenges ensures price(c) == Worth(c, visible, challenges, ties) {
      CountsAreKnown(solves, c, challenges, cutoff);
    }
    SolveRowsSum(visible, visible, challenges, ties, price);
    AwardRowsSum(VisibleAwards(scores, cutoff));
    CountedIsWorth(order, solves, challenges, cutoff, price);
    AwardsAreKnown(scores, cutoff);
  }

  // ---------- the ranking ----------

  datatype Entry = Entry(team: Id, name: Name, total: Total)

  predicate StringLess(a: string, b: string) {
    if a == "" || b == "" then a == "" && b != ""
    else if a[0] == b[0] then StringLess(a[1..], b[1..])
    else a[0] < b[0]
  }

  /** NULL first, then the earlier instant: null_last_first and last_solve_at.asc(). */
  predicate LastBefore(a: Option<Time>, b: Option<Time>) {
    (a.None? && b.Some?) || (a.Some? && b.Some? && a.value < b.value)
  }

  predicate RanksBefore(a: Entry, b: Entry) {
    if a.total.score != b.total.score then a.total.score > b.total.score
    else if a.total.solves != b.total.solves then a.total.solves > b.total.solves
    else if a.total.last != b.total.last then LastBefore(a.total.last, b.total.last)
    else StringLess(a.name.folded, b.name.folded)
  }

  predicate NamesUnique(rows: set<Entry>) {
    forall a, b :: a in rows && b in rows && a != b ==> a.name.folded != b.name.folded
  }

  lemma {:induction false} StringLessTotal(a: string, b: string)
    ensures a != b ==> StringLess(a, b) || StringLess(b, a)
    ensures !StringLess(a, a)
    decreases |a|
  {
    if a != "" {
      StringLessTotal(a[1..], if b == "" then "" else b[1..]);
      if b != "" && a[0] == b[0] && a[1..] == b[1..] {
        assert a == [a[0]] + a[1..] && b == [b[0]] + b[1..];
      }
    }
  }

  lemma {:induction false} StringLessTransitive(a: string, b: string, c: string)
    requires StringLess(a, b) && StringLess(b, c)
    ensures StringLess(a, c)
  {
    if a != "" && a[0] == b[0] && b[0] == c[0] {
      StringLessTransitive(a[1..], b[1..], c[1..]);
    }
  }

  /** a comes before b: it is a proper beginning of b, or has the lesser character where the two first differ. */
  predicate FirstDifferenceDecides(a: string, b: string) {
    exists k :: 0 <= k <= |a| && k < |b| && a[..k] == b[..k] && (k == |a| || a[k] < b[k])
  }

  lemma {:induction false} LessByFirstDifference(a: string, b: string)
    ensures StringLess(a, b) ==> FirstDifferenceDecides(a, b)
    decreases |a|
  {
    if StringLess(a, b) {
      if a != "" && a[0] == b[0] {
        LessByFirstDifference(a[1..], b[1..]);
        var k :| 0 <= k <= |a[1..]| && k < |b[1..]| && a[1..][..k] == b[1..][..k]
                 && (k == |a[1..]| || a[1..][k] < b[1..][k]);
        assert a[..k + 1] == [a[0]] + a[1..][..k] && b[..k + 1] == [b[0]] + b[1..][..k];
      } else {
        assert a[..0] == b[..0];
      }
    }
  }

  lemma RanksTransitive(a: Entry, b: Entry, c: Entry)
    requires RanksBefore(a, b) && RanksBefore(b, c)
    ensures RanksBefore(a, c)
  {
    if StringLess(a.name.folded, b.name.folded) && StringLess(b.name.folded, c.name.folded) {
      StringLessTransitive(a.name.folded, b.name.folded, c.name.folded);
    }
  }

  /** Names that differ under lower() make the sort keys a strict total order. */
  lemma RankingIsTotal(rows: set<Entry>)
    requires NamesUnique(rows)
    ensures StrictTotal(rows, RanksBefore)
  {
    forall a | a in rows ensures !RanksBefore(a, a) { StringLessTotal(a.name.folded, a.name.folded); }
    forall a, b | a in rows && b in rows && a != b ensures RanksBefore(a, b) || RanksBefore(b, a) {
      StringLessTotal(a.name.folded, b.name.folded);
    }
    forall a, b, c | a in rows && b in rows && c in rows && RanksBefore(a, b) && RanksBefore(b, c)
      ensures RanksBefore(a, c)
    {
      RanksTransitive(a, b, c);
    }
  }

  /** How the list reads: scores never rise, equal scores go by solves, equal solves by the instant of the last one,
      and an entry that did not make it onto the list outranks none that did. */
  lemma BoardReadsDown(rows: set<Entry>, list: seq<Entry>, i: nat, j: nat)
    requires NamesUnique(rows) && IsTop(rows, RanksBefore, MAX_ENTRIES, list) && i < j < |list|
    ensures var a, b := list[i].total, list[j].total;
            && a.score >= b.score
            && (a.score == b.score ==> a.solves >= b.solves)
            && (a.score == b.score && a.solves == b.solves && a.last.Some? ==>
                  b.last.Some? && a.last.value <= b.last.value)
    ensures var a, b := list[i], list[j];
            a.total == b.total ==> FirstDifferenceDecides(a.name.folded, b.name.folded)
    ensures |list| == Min(|rows|, 1000)
    ensures forall e :: e in rows && e !in list ==> |list| == MAX_ENTRIES && list[i].total.score >= e.total.score
  {
    RankingIsTotal(rows);
    SortedSize(list, rows, RanksBefore);
    SubsetCardinality(Elements(list), rows);
    LessByFirstDifference(list[i].name.folded, list[j].name.folded);
    hide StringLess, FirstDifferenceDecides;
    assert RanksBefore(list[i], list[j]);
    forall e | e in rows && e !in list ensures |list| == MAX_ENTRIES && list[i].total.score >= e.total.score {
      assert RanksBefore(list[i], e);
    }
  }

  /** With case-insensitively unique names the board lists one determined top 1,000. */
  lemma RankingIsDetermined(rows: set<Entry>)
    requires NamesUnique(rows)
    ensures exists list :: IsTop(rows, RanksBefore, MAX_ENTRIES, list)
    ensures forall p, q :: IsTop(rows, RanksBefore, MAX_ENTRIES, p) && IsTop(rows, RanksBefore, MAX_ENTRIES, q) ==>
              p == q
  {
    RankingIsTotal(rows);
    TopExists(rows, RanksBefore, MAX_ENTRIES);
    forall p, q | IsTop(rows, RanksBefore, MAX_ENTRIES, p) && IsTop(rows, RanksBefore, MAX_ENTRIES, q) ensures p == q {
      TopUnique(rows, RanksBefore, MAX_ENTRIES, p, q);
    }
  }
}
