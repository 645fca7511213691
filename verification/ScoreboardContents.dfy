/** What a cached board shows: the board of the cache protocol names the commits its statements saw, and those name
    the rows and entries of the public scoreboard. */
module ScoreboardContents {
  import opened Basics
  import opened Schema
  import opened Services
  import opened Database
  import opened ScoreboardCache
  import R = ScoreboardEventRow
  import F = FrozenBoard
  import B = Scoreboard
  import S = Scoring

  /** The database after each number of commits that touch what a board shows. */
  predicate Behind(dbs: seq<Db>, s: Sys) {
    |dbs| == |s.history| && forall n :: 0 <= n < |dbs| ==> dbs[n].event == s.history[n]
  }

  /** The ranked rows of a board: from the database its second statement saw, under the event row and the instant of
      the request that built it. */
  function EntriesOf(dbs: seq<Db>, b: Board, ties: S.TieRule): set<B.Entry>
    requires b.rows < |dbs|
  {
    F.PublicEntries(dbs[b.rows].(event := b.origin.event, now := b.origin.at), ties)
  }

  /** Its total_entries: from the database its first statement saw. */
  function TotalEntries(dbs: seq<Db>, b: Board, ties: S.TieRule): nat
    requires b.total < |dbs|
  {
    |F.Totals(dbs[b.total], Cutoff(b.origin.event, b.origin.at), ties)|
  }

  /** The same, computed now. */
  function PresentTotal(db: Db, ties: S.TieRule): nat {
    |F.Totals(db, Cutoff(db.event, db.now), ties)|
  }

  /** The rows on a board depend on the clock through the cutoff alone: one phase of one event row shows one board. */
  lemma SamePhaseSameEntries(db: Db, event: Event, a: Time, b: Time, ties: S.TieRule)
    requires CachePhase(event, a) == CachePhase(event, b)
    ensures F.PublicEntries(db.(event := event, now := a), ties) == F.PublicEntries(db.(event := event, now := b), ties)
  {
    SamePhaseSameCutoff(event, a, b);
    hide Cutoff, F.Entries, B.TeamTotals;
  }

  /** When every commit had completed its increment by the reader's last look at the counter, and the event rows that
      builder and reader began with are the present one, the board the reader is given, cached or fresh, is the public
      scoreboard of the present database, computed at the instant the reader asked. */
  lemma ServedBoardIsPublic(
    event: Event, now: Time, ttl: real, steps: seq<Step>, r: nat, b: Board, dbs: seq<Db>, ties: S.TieRule)
    requires var s := Run(Start(event, now, ttl), steps);
             && r in s.requests && Answered(s.requests[r], b) && Behind(dbs, s)
             && (forall i :: 0 <= i < |s.commits| ==> i in s.requests[r].completed)
             && b.origin.event == s.event && s.requests[r].origin.event == s.event
    ensures var s := Run(Start(event, now, ttl), steps);
            && b.total == b.rows == |s.commits| == |dbs| - 1
            && var db := dbs[|s.commits|].(now := s.requests[r].origin.at);
               db.event == s.event && EntriesOf(dbs, b, ties) == F.PublicEntries(db, ties)
               && TotalEntries(dbs, b, ties) == PresentTotal(db, ties)
  {
    var s0 := Start(event, now, ttl);
    var s := Run(s0, steps);
    ServedBoardIsCoherent(event, now, ttl, steps, r, b);
    R.RunKeepsOrigins(s0, steps);
    hide Run, CachePhase, Cutoff, F.PublicEntries, F.Totals, Answered;
    assert |s.commits| > 0 ==> |s.commits| - 1 in s.requests[r].completed;
    var at := s.requests[r].origin.at;
    SamePhaseSameEntries(dbs[|s.commits|], s.event, b.origin.at, at, ties);
    SamePhaseSameCutoff(s.event, b.origin.at, at);
    assert dbs[|s.commits|].(event := s.event) == dbs[|s.commits|];
    SameTotal(dbs[|s.commits|], b.origin.at, at, ties);
  }

  lemma SameTotal(db: Db, a: Time, b: Time, ties: S.TieRule)
    requires Cutoff(db.event, a) == Cutoff(db.event, b)
    ensures |F.Totals(db, Cutoff(db.event, a), ties)| == PresentTotal(db.(now := b), ties)
  {
    hide Cutoff, B.TeamTotals;
  }

  /** So it is when the counter has not moved between the arrivals of builder and reader and the reader's look, and
      all increments are through. */
  lemma QuietBoardIsPublic(
    event: Event, now: Time, ttl: real, steps: seq<Step>, r: nat, b: Board, dbs: seq<Db>, ties: S.TieRule)
    requires var s := Run(Start(event, now, ttl), steps);
             && r in s.requests && Answered(s.requests[r], b) && Behind(dbs, s)
             && (forall i :: 0 <= i < |s.commits| ==> i in s.requests[r].completed)
             && b.origin.base == s.requests[r].generation == s.requests[r].origin.base
    ensures var s := Run(Start(event, now, ttl), steps);
            && b.rows == |s.commits| == |dbs| - 1
            && EntriesOf(dbs, b, ties)
               == F.PublicEntries(dbs[|s.commits|].(now := s.requests[r].origin.at), ties)
  {
    hide Run, Answered, CachePhase, F.PublicEntries, Behind;
    RowsArePresent(event, now, ttl, steps, r, b);
    ServedBoardIsPublic(event, now, ttl, steps, r, b, dbs, ties);
  }

  lemma RowsArePresent(event: Event, now: Time, ttl: real, steps: seq<Step>, r: nat, b: Board)
    requires var s := Run(Start(event, now, ttl), steps);
             && r in s.requests && Answered(s.requests[r], b)
             && (forall i :: 0 <= i < |s.commits| ==> i in s.requests[r].completed)
             && b.origin.base == s.requests[r].generation == s.requests[r].origin.base
    ensures var s := Run(Start(event, now, ttl), steps);
            b.origin.event == s.event && s.requests[r].origin.event == s.event
  {
    var s0 := Start(event, now, ttl);
    hide Run, Answered, CachePhase;
    R.RunKeepsOrigins(s0, steps);
    RunKeepsCache(s0, steps);
    hide CacheOk, R.OriginsOk;
    R.RowIsCurrentWhenUnmoved(event, now, ttl, steps, r, b);
    OwnRowIsCurrent(Run(s0, steps), r);
    LatestRow(Run(s0, steps), r, b.origin.seen);
    LatestRow(Run(s0, steps), r, Run(s0, steps).requests[r].origin.seen);
  }

  /** The row that covers every commit is the present one. */
  lemma LatestRow(s: Sys, r: nat, seen: nat)
    requires R.OriginsOk(s) && r in s.requests && seen < |s.history|
    requires forall i :: 0 <= i < |s.commits| ==> i in s.requests[r].completed
    requires forall i :: i in s.requests[r].completed ==> i < seen
    ensures s.history[seen] == s.event
  {
    assert |s.commits| > 0 ==> |s.commits| - 1 in s.requests[r].completed;
    hide R.Known, R.BoardIn;
  }

  /** Likewise the row the reader itself began with covers every commit that had completed by then. */
  lemma OwnRowIsCurrent(s: Sys, r: nat)
    requires CacheOk(s) && R.OriginsOk(s)
    requires r in s.requests && s.requests[r].origin.base == s.requests[r].generation
    ensures forall i :: i in s.requests[r].completed ==> i < s.requests[r].origin.seen
    ensures s.requests[r].origin.seen < |s.history|
    ensures s.requests[r].origin.event == s.history[s.requests[r].origin.seen]
  {
    hide CachePhase, R.Known, R.BoardIn;
  }
}
