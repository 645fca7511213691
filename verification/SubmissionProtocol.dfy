/** submit_flag of backend/src/alpha/routes_participant.py as it interleaves: each statement is a step,
    each statement sees the rows committed before it, locks are held to the end of the transaction, and
    an uncommitted row is visible to its own transaction only. Team mates and other teams run at once. */
module SubmissionProtocol {
  import opened Basics
  import opened Scoring

  type Id = nat
  type TxnId = nat

  const MAX_CHALLENGE_ATTEMPTS := 1000
  const MAX_SUBMISSIONS_PER_TEAM_EVENT := 10000

  /** The columns of a challenge that matter here. */
  datatype Terms = Terms(scoring: Scoring, maxAttempts: nat) {
    function Limit(): nat {
      Min(if maxAttempts == 0 then MAX_CHALLENGE_ATTEMPTS else maxAttempts, MAX_CHALLENGE_ATTEMPTS)
    }
  }

  /** A committed submission. A correct one stands for its solve and its score event too, and keeps the
      scoring columns its transaction read under the challenge lock. */
  datatype Row = Row(team: Id, challenge: Id, key: string, correct: bool, points: int, scoring: Scoring)

  datatype Pc =
    | Started            // Event row share-locked
    | TeamLocked         // User, Membership and Team rows locked
    | NotReplayed        // no submission is stored under this key
    | NotSolved          // the challenge was read and the team has no solve of it
    | BelowLimit         // attempts on this challenge are below its limit
    | Admitted           // attempts in this event are below the ceiling
    | Candidate          // the flag matched; Challenge row locked and refreshed
    | Decided(correct: bool)
    | Inserted(ok: bool)
    | Counted(count: nat)

  datatype Txn = Txn(team: Id, challenge: Id, key: string, pc: Pc, limit: nat, locked: Option<Scoring>) {
    function Rank(): nat {
      match pc
      case Started => 0
      case TeamLocked => 1
      case NotReplayed => 2
      case NotSolved => 3
      case BelowLimit => 4
      case _ => 5
    }
  }

  datatype State = State(challenges: map<Id, Terms>, rows: seq<Row>, txns: map<TxnId, Txn>)

  datatype Step =
    | Begin(t: TxnId, team: Id, challenge: Id, key: string)
    | LockTeam(t: TxnId)
    | Statement(t: TxnId)
    | Compare(t: TxnId, matched: bool)
    | Commit(t: TxnId)
    | Abort(t: TxnId)
    | Edit(challenge: Id, terms: Terms)
    | Delete(challenge: Id)

  // ---------- what the statements count ----------

  predicate IsAttempt(r: Row, team: Id, challenge: Id) { r.team == team && r.challenge == challenge }

  function Attempts(rows: seq<Row>, team: Id, challenge: Id): nat {
    if rows == [] then 0
    else
      var n := |rows| - 1;
      Attempts(rows[..n], team, challenge) + (if IsAttempt(rows[n], team, challenge) then 1 else 0)
  }

  function EventAttempts(rows: seq<Row>, team: Id): nat {
    if rows == [] then 0
    else var n := |rows| - 1; EventAttempts(rows[..n], team) + (if rows[n].team == team then 1 else 0)
  }

  function Solves(rows: seq<Row>, challenge: Id): nat {
    if rows == [] then 0
    else
      var n := |rows| - 1;
      Solves(rows[..n], challenge) + (if rows[n].correct && rows[n].challenge == challenge then 1 else 0)
  }

  predicate Stored(rows: seq<Row>, team: Id, challenge: Id, key: string) {
    exists i :: 0 <= i < |rows| && IsAttempt(rows[i], team, challenge) && rows[i].key == key
  }

  predicate Solved(rows: seq<Row>, team: Id, challenge: Id) {
    exists i :: 0 <= i < |rows| && IsAttempt(rows[i], team, challenge) && rows[i].correct
  }

  // ---------- the steps ----------

  predicate TeamFree(s: State, team: Id) {
    forall u :: u in s.txns && s.txns[u].team == team ==> s.txns[u].Rank() == 0
  }

  predicate ChallengeFree(s: State, challenge: Id) {
    forall u :: u in s.txns && s.txns[u].challenge == challenge ==> s.txns[u].locked.None?
  }

  function Put(s: State, t: TxnId, x: Txn): State { s.(txns := s.txns[t := x]) }

  function Drop(s: State, t: TxnId): State { s.(txns := s.txns - {t}) }

  /** The unique constraints on submissions and solves. */
  predicate Collides(rows: seq<Row>, x: Txn) {
    x.pc.Decided? && (Stored(rows, x.team, x.challenge, x.key) || (x.pc.correct && Solved(rows, x.team, x.challenge)))
  }

  /** The next statement of a transaction that needs no lock and no flag comparison. Every refusal,
      the answers from stored rows and an integrity error all end the transaction. */
  function RunStatement(s: State, t: TxnId): State
    requires t in s.txns
  {
    var x := s.txns[t];
    match x.pc
    case TeamLocked =>
      if Stored(s.rows, x.team, x.challenge, x.key) then Drop(s, t) else Put(s, t, x.(pc := NotReplayed))
    case NotReplayed =>
      if x.challenge !in s.challenges || Solved(s.rows, x.team, x.challenge) then Drop(s, t)
      else Put(s, t, x.(pc := NotSolved, limit := s.challenges[x.challenge].Limit()))
    case NotSolved =>
      if Attempts(s.rows, x.team, x.challenge) >= x.limit then Drop(s, t) else Put(s, t, x.(pc := BelowLimit))
    case BelowLimit =>
      if EventAttempts(s.rows, x.team) >= MAX_SUBMISSIONS_PER_TEAM_EVENT then Drop(s, t)
      else Put(s, t, x.(pc := Admitted))
    case Decided(correct) =>
      if Collides(s.rows, x) then Drop(s, t) else Put(s, t, x.(pc := Inserted(correct)))
    case Inserted(ok) =>
      if ok then Put(s, t, x.(pc := Counted(Solves(s.rows, x.challenge) + 1))) else s
    case _ => s
  }

  /** The row a transaction commits: a wrong one right after its insertion, a correct one with points. */
  function CommittedRow(s: State, x: Txn): Row
    requires x.pc.Counted? ==> x.locked.Some? && x.locked.value.decay > 0
  {
    if x.pc.Counted? then
      Row(x.team, x.challenge, x.key, true, ChallengePoints(x.locked.value, x.pc.count), x.locked.value)
    else
      Row(x.team, x.challenge, x.key, false, 0, Scoring(Fixed, 1, 1, 1))
  }

  function Apply(s: State, step: Step): State {
    match step
    case Begin(t, team, challenge, key) =>
      if t in s.txns then s else Put(s, t, Txn(team, challenge, key, Started, 0, None))
    case LockTeam(t) =>
      if t in s.txns && s.txns[t].pc == Started && TeamFree(s, s.txns[t].team)
      then Put(s, t, s.txns[t].(pc := TeamLocked)) else s
    case Statement(t) => if t in s.txns then RunStatement(s, t) else s
    case Compare(t, matched) =>
      if t !in s.txns then s
      else
        var x := s.txns[t];
        if x.pc == Admitted then
          if !matched then Put(s, t, x.(pc := Decided(false)))
          else if x.challenge !in s.challenges then Drop(s, t)
          else if ChallengeFree(s, x.challenge)
          then Put(s, t, x.(pc := Candidate, locked := Some(s.challenges[x.challenge].scoring)))
          else s
        else if x.pc == Candidate then Put(s, t, x.(pc := Decided(matched)))
        else s
    case Commit(t) =>
      if t !in s.txns then s
      else
        var x := s.txns[t];
        if x.pc == Inserted(false) || (x.pc.Counted? && x.locked.Some? && x.locked.value.decay > 0)
        then Drop(s, t).(rows := s.rows + [CommittedRow(s, x)]) else s
    case Abort(t) => Drop(s, t)
    case Edit(challenge, terms) => // holds the Event row exclusively, so no submission is in flight
      if s.txns == map[] && terms.scoring.Valid() then s.(challenges := s.challenges[challenge := terms]) else s
    case Delete(challenge) => // likewise, and refused once a submission is stored
      if s.txns == map[] && !exists i :: 0 <= i < |s.rows| && s.rows[i].challenge == challenge
      then s.(challenges := s.challenges - {challenge}) else s
  }

  function Run(steps: seq<Step>): State {
    if steps == [] then State(map[], [], map[])
    else Apply(Run(steps[..|steps| - 1]), steps[|steps| - 1])
  }

  // ---------- the invariant ----------

  /** What a transaction has established stays true while it holds its locks. */
  predicate Facts(s: State, x: Txn) {
    && (x.Rank() >= 2 ==> !Stored(s.rows, x.team, x.challenge, x.key))
    && (x.Rank() >= 3 ==>
          && x.challenge in s.challenges && !Solved(s.rows, x.team, x.challenge)
          && x.limit == s.challenges[x.challenge].Limit())
    && (x.Rank() >= 4 ==> Attempts(s.rows, x.team, x.challenge) < x.limit)
    && (x.Rank() >= 5 ==> EventAttempts(s.rows, x.team) < MAX_SUBMISSIONS_PER_TEAM_EVENT)
    && (x.locked.Some? ==> x.challenge in s.challenges && x.locked.value == s.challenges[x.challenge].scoring)
    && (x.pc.Candidate? || x.pc == Decided(true) || x.pc == Inserted(true) || x.pc.Counted? ==> x.locked.Some?)
    && (x.pc.Counted? ==> x.pc.count == Solves(s.rows, x.challenge) + 1)
  }

  ghost predicate LocksExclude(s: State) {
    && (forall t, u :: t in s.txns && u in s.txns && t != u && s.txns[t].Rank() > 0 && s.txns[u].Rank() > 0
          ==> s.txns[t].team != s.txns[u].team)
    && (forall t, u :: t in s.txns && u in s.txns && t != u && s.txns[t].locked.Some? && s.txns[u].locked.Some?
          ==> s.txns[t].challenge != s.txns[u].challenge)
  }

  /** The i-th row, as the statement counting solves saw its challenge. */
  predicate RowScored(rows: seq<Row>, i: nat)
    requires i < |rows|
  {
    var r := rows[i];
    r.scoring.Valid()
    && r.points == if r.correct then ChallengePoints(r.scoring, Solves(rows[..i], r.challenge) + 1) else 0
  }

  predicate RowNew(rows: seq<Row>, i: nat)
    requires i < |rows|
  {
    var r := rows[i];
    && !Stored(rows[..i], r.team, r.challenge, r.key)
    && (r.correct ==> !Solved(rows[..i], r.team, r.challenge))
    && Attempts(rows[..i], r.team, r.challenge) < MAX_CHALLENGE_ATTEMPTS
    && EventAttempts(rows[..i], r.team) < MAX_SUBMISSIONS_PER_TEAM_EVENT
  }

  ghost predicate RowsOk(rows: seq<Row>) {
    forall i :: 0 <= i < |rows| ==> RowScored(rows, i) && RowNew(rows, i)
  }

  ghost predicate Inv(s: State) {
    && (forall c :: c in s.challenges ==> s.challenges[c].scoring.Valid())
    && (forall t :: t in s.txns ==> Facts(s, s.txns[t]))
    && LocksExclude(s)
    && RowsOk(s.rows)
  }

  lemma AppendCounts(rows: seq<Row>, r: Row, team: Id, challenge: Id)
    ensures Attempts(rows + [r], team, challenge)
            == Attempts(rows, team, challenge) + (if IsAttempt(r, team, challenge) then 1 else 0)
    ensures EventAttempts(rows + [r], team) == EventAttempts(rows, team) + (if r.team == team then 1 else 0)
    ensures Solves(rows + [r], challenge)
            == Solves(rows, challenge) + (if r.correct && r.challenge == challenge then 1 else 0)
    ensures Solved(rows + [r], team, challenge)
            <==> Solved(rows, team, challenge) || (IsAttempt(r, team, challenge) && r.correct)
    ensures forall key :: Stored(rows + [r], team, challenge, key)
                          <==> Stored(rows, team, challenge, key) || (IsAttempt(r, team, challenge) && r.key == key)
  {
    var more := rows + [r];
    assert more[..|rows|] == rows && more[|rows|] == r;
    assert forall i :: 0 <= i < |rows| ==> more[i] == rows[i];
  }

  lemma AppendRow(rows: seq<Row>, r: Row)
    requires RowsOk(rows)
    requires RowScored(rows + [r], |rows|) && RowNew(rows + [r], |rows|)
    ensures RowsOk(rows + [r])
  {
    var more := rows + [r];
    forall i | 0 <= i < |rows| ensures RowScored(more, i) && RowNew(more, i) {
      assert more[..i] == rows[..i] && more[i] == rows[i];
      assert RowScored(rows, i) && RowNew(rows, i);
    }
  }

  lemma {:induction false} CommitKeepsInv(s: State, t: TxnId)
    requires Inv(s) && t in s.txns
    ensures Inv(Apply(s, Commit(t)))
  {
    var x := s.txns[t];
    var s' := Apply(s, Commit(t));
    if s' != s {
      var r := CommittedRow(s, x);
      var more := s.rows + [r];
      assert more[..|s.rows|] == s.rows && more[|s.rows|] == r;
      AppendRow(s.rows, r);
      forall u | u in s'.txns ensures Facts(s', s'.txns[u]) {
        var y := s.txns[u];
        assert Facts(s, y);
        AppendCounts(s.rows, r, y.team, y.challenge);
      }
    }
  }

  /** A transaction moves on without committing: only its own facts and locks need a look. */
  lemma PutKeepsInv(s: State, t: TxnId, y: Txn)
    requires Inv(s) && Facts(s, y)
    requires y.Rank() > 0 ==> (t in s.txns && s.txns[t].Rank() > 0 && s.txns[t].team == y.team) || TeamFree(s, y.team)
    requires y.locked.Some? ==>
               (t in s.txns && s.txns[t].locked.Some? && s.txns[t].challenge == y.challenge)
                 || ChallengeFree(s, y.challenge)
    ensures Inv(Put(s, t, y))
  {
    var s' := Put(s, t, y);
    forall u | u in s'.txns ensures Facts(s', s'.txns[u]) {
      assert u != t ==> Facts(s, s.txns[u]);
    }
    assert LocksExclude(s');
  }

  lemma DropKeepsInv(s: State, t: TxnId)
    requires Inv(s)
    ensures Inv(Drop(s, t))
  {
    var s' := Drop(s, t);
    forall u | u in s'.txns ensures Facts(s', s'.txns[u]) {
      assert Facts(s, s.txns[u]);
    }
  }

  lemma StatementKeepsInv(s: State, t: TxnId)
    requires Inv(s) && t in s.txns
    ensures Inv(RunStatement(s, t))
  {
    var x := s.txns[t];
    assert Facts(s, x);
    DropKeepsInv(s, t);
    var s' := RunStatement(s, t);
    if s' != s && s' != Drop(s, t) {
      PutKeepsInv(s, t, s'.txns[t]);
    }
  }

  lemma CompareKeepsInv(s: State, t: TxnId, matched: bool)
    requires Inv(s) && t in s.txns
    ensures Inv(Apply(s, Compare(t, matched)))
  {
    var x := s.txns[t];
    assert Facts(s, x);
    DropKeepsInv(s, t);
    var s' := Apply(s, Compare(t, matched));
    if s' != s && s' != Drop(s, t) {
      PutKeepsInv(s, t, s'.txns[t]);
    }
  }

  lemma StepKeepsInv(s: State, step: Step)
    requires Inv(s)
    ensures Inv(Apply(s, step))
  {
    match step
    case Begin(t, team, challenge, key) =>
      if t !in s.txns { PutKeepsInv(s, t, Txn(team, challenge, key, Started, 0, None)); }
    case LockTeam(t) =>
      if t in s.txns && s.txns[t].pc == Started && TeamFree(s, s.txns[t].team) {
        assert Facts(s, s.txns[t]);
        PutKeepsInv(s, t, s.txns[t].(pc := TeamLocked));
      }
    case Statement(t) => if t in s.txns { StatementKeepsInv(s, t); }
    case Compare(t, matched) => if t in s.txns { CompareKeepsInv(s, t, matched); }
    case Commit(t) => if t in s.txns { CommitKeepsInv(s, t); }
    case Abort(t) => DropKeepsInv(s, t);
    case Edit(_, _) =>
    case Delete(_) =>
  }

  lemma {:induction false} RunKeepsInv(steps: seq<Step>)
    ensures Inv(Run(steps))
  {
    if steps != [] {
      RunKeepsInv(steps[..|steps| - 1]);
      StepKeepsInv(Run(steps[..|steps| - 1]), steps[|steps| - 1]);
    }
  }

  // ---------- the award sequence ----------

  /** Row i is the k-th committed solve of its challenge. */
  predicate IsNthSolve(rows: seq<Row>, challenge: Id, k: nat, i: nat) {
    i < |rows| && rows[i].correct && rows[i].challenge == challenge && Solves(rows[..i], challenge) + 1 == k
  }

  lemma {:induction false} SolvesMonotone(rows: seq<Row>, challenge: Id, i: nat, j: nat)
    requires i <= j <= |rows|
    ensures Solves(rows[..i], challenge) <= Solves(rows[..j], challenge)
    decreases j
  {
    if i < j {
      assert rows[..j][..j - 1] == rows[..j - 1];
      SolvesMonotone(rows, challenge, i, j - 1);
    }
  }

  lemma SolvesCounts(rows: seq<Row>, challenge: Id, i: nat)
    requires i < |rows| && rows[i].correct && rows[i].challenge == challenge
    ensures Solves(rows[..i + 1], challenge) == Solves(rows[..i], challenge) + 1
  {
    assert rows[..i + 1][..i] == rows[..i];
  }

  /** The numbering 1, 2, 3, ... of a challenge's solves has no gap and no repeat. */
  lemma {:induction false} NthSolveExists(rows: seq<Row>, challenge: Id, k: nat)
    requires 1 <= k <= Solves(rows, challenge)
    ensures exists i: nat :: IsNthSolve(rows, challenge, k, i)
    ensures forall i: nat, j: nat :: IsNthSolve(rows, challenge, k, i) && IsNthSolve(rows, challenge, k, j) ==> i == j
  {
    forall i: nat, j: nat | IsNthSolve(rows, challenge, k, i) && IsNthSolve(rows, challenge, k, j) ensures i == j {
      if i < j { SolvesCounts(rows, challenge, i); SolvesMonotone(rows, challenge, i + 1, j); }
      if j < i { SolvesCounts(rows, challenge, j); SolvesMonotone(rows, challenge, j + 1, i); }
    }
    var n := |rows| - 1;
    if k <= Solves(rows[..n], challenge) {
      NthSolveExists(rows[..n], challenge, k);
      var i: nat :| IsNthSolve(rows[..n], challenge, k, i);
      assert rows[..n][..i] == rows[..i];
      assert IsNthSolve(rows, challenge, k, i);
    } else {
      assert IsNthSolve(rows, challenge, k, n);
    }
  }

  /** In every interleaving the k-th committed solve of a challenge carries exactly the points of a k-th
      solve under the scoring its transaction locked, and equal scoring never pays a later solve more. */
  lemma AwardSequence(steps: seq<Step>, challenge: Id, k: nat, i: nat)
    requires IsNthSolve(Run(steps).rows, challenge, k, i)
    ensures var rows := Run(steps).rows;
            && rows[i].scoring.Valid() && rows[i].points == ChallengePoints(rows[i].scoring, k)
            && FairPrice(rows[i].scoring, k, rows[i].points)
            && forall j: nat, m: nat :: IsNthSolve(rows, challenge, m, j) && i < j && rows[j].scoring == rows[i].scoring
                 ==> k < m && rows[j].points <= rows[i].points
  {
    RunKeepsInv(steps);
    var rows := Run(steps).rows;
    assert RowScored(rows, i);
    PointsAreFair(rows[i].scoring, k);
    hide FairPrice;
    forall j: nat, m: nat | IsNthSolve(rows, challenge, m, j) && i < j && rows[j].scoring == rows[i].scoring
      ensures k < m && rows[j].points <= rows[i].points
    {
      assert RowScored(rows, j);
      SolvesCounts(rows, challenge, i);
      SolvesMonotone(rows, challenge, i + 1, j);
      PointsNonIncreasing(rows[i].scoring, k, m);
    }
  }

  /** The scoring a solve is paid by is still the challenge's scoring when the solve commits. */
  lemma CommitUsesCurrentScoring(steps: seq<Step>, t: TxnId)
    requires var s := Run(steps); t in s.txns && s.txns[t].pc.Counted?
    ensures var s := Run(steps); var x := s.txns[t]; var s' := Apply(s, Commit(t));
            && x.challenge in s.challenges && s.challenges[x.challenge].scoring.Valid()
            && s'.rows == s.rows + [Row(x.team, x.challenge, x.key, true,
                 ChallengePoints(s.challenges[x.challenge].scoring, Solves(s.rows, x.challenge) + 1),
                 s.challenges[x.challenge].scoring)]
  {
    hide Run, RowsOk, LocksExclude, Stored, Solved, ChallengePoints, Attempts, EventAttempts, Solves;
    RunKeepsInv(steps);
    assert Facts(Run(steps), Run(steps).txns[t]);
  }

  // ---------- caps and constraints ----------

  lemma {:induction false} CapsFollow(rows: seq<Row>, team: Id, challenge: Id)
    requires RowsOk(rows)
    ensures Attempts(rows, team, challenge) <= MAX_CHALLENGE_ATTEMPTS
    ensures EventAttempts(rows, team) <= MAX_SUBMISSIONS_PER_TEAM_EVENT
  {
    if rows != [] {
      var n := |rows| - 1;
      forall i | 0 <= i < n ensures RowScored(rows[..n], i) && RowNew(rows[..n], i) {
        assert rows[..n][..i] == rows[..i];
        assert RowScored(rows, i) && RowNew(rows, i);
      }
      CapsFollow(rows[..n], team, challenge);
      assert RowNew(rows, n);
    }
  }

  /** However many team mates submit at once: at most 1,000 submissions per challenge and 10,000 per
      event, one solve per team and challenge, and no key stored twice. */
  lemma CapsHold(steps: seq<Step>, team: Id, challenge: Id)
    ensures var rows := Run(steps).rows;
            && Attempts(rows, team, challenge) <= MAX_CHALLENGE_ATTEMPTS
            && EventAttempts(rows, team) <= MAX_SUBMISSIONS_PER_TEAM_EVENT
            && (forall i, j ::
                  0 <= i < j < |rows| && IsAttempt(rows[i], team, challenge) && IsAttempt(rows[j], team, challenge)
                  ==> rows[i].key != rows[j].key && !(rows[i].correct && rows[j].correct))
  {
    RunKeepsInv(steps);
    var rows := Run(steps).rows;
    CapsFollow(rows, team, challenge);
    forall i, j | 0 <= i < j < |rows| && IsAttempt(rows[i], team, challenge) && IsAttempt(rows[j], team, challenge)
      ensures rows[i].key != rows[j].key && !(rows[i].correct && rows[j].correct)
    {
      assert RowNew(rows, j);
      assert rows[..j][i] == rows[i];
    }
  }

  /** The unique constraints never fire: an insertion meets no committed row and no other
      transaction's uncommitted row for its team. */
  lemma NoIntegrityError(steps: seq<Step>, t: TxnId)
    requires t in Run(steps).txns && Run(steps).txns[t].pc.Decided?
    ensures var s := Run(steps);
            && !Collides(s.rows, s.txns[t])
            && forall u :: u in s.txns && u != t && s.txns[u].team == s.txns[t].team ==> s.txns[u].pc == Started
  {
    RunKeepsInv(steps);
    assert Facts(Run(steps), Run(steps).txns[t]);
  }

  // ---------- nothing is refused without reason ----------

  /** The key is new, the challenge there and unsolved, and the team has attempts left on it and in the event. */
  predicate Fits(s: State, team: Id, challenge: Id, key: string) {
    && challenge in s.challenges && !Stored(s.rows, team, challenge, key) && !Solved(s.rows, team, challenge)
    && Attempts(s.rows, team, challenge) < 1000
    && (s.challenges[challenge].maxAttempts != 0 ==>
          Attempts(s.rows, team, challenge) < s.challenges[challenge].maxAttempts)
    && EventAttempts(s.rows, team) < 10000
  }

  function ApplyAll(s: State, steps: seq<Step>): State
    decreases |steps|
  {
    if steps == [] then s else ApplyAll(Apply(s, steps[0]), steps[1..])
  }

  /** The steps of one submission up to the flag comparison, and from there on. */
  function Entering(t: TxnId, team: Id, challenge: Id, key: string): seq<Step> {
    [Begin(t, team, challenge, key), LockTeam(t), Statement(t), Statement(t), Statement(t), Statement(t)]
  }

  function Deciding(t: TxnId, matched: bool): seq<Step> {
    [Compare(t, matched), Compare(t, matched), Statement(t), Statement(t), Commit(t)]
  }

  lemma ApplyFirst(s: State, step: Step, rest: seq<Step>)
    ensures ApplyAll(s, [step] + rest) == ApplyAll(Apply(s, step), rest)
  {
    assert ([step] + rest)[1..] == rest;
  }

  lemma {:induction false} ApplyBoth(s: State, a: seq<Step>, b: seq<Step>)
    ensures ApplyAll(s, a + b) == ApplyAll(ApplyAll(s, a), b)
    decreases |a|
  {
    hide Apply;
    if a == [] {
      assert a + b == b;
    } else {
      assert (a + b)[1..] == a[1..] + b;
      ApplyBoth(Apply(s, a[0]), a[1..], b);
    }
  }

  lemma {:induction false} RunGoesOn(a: seq<Step>, b: seq<Step>)
    ensures Run(a + b) == ApplyAll(Run(a), b)
    decreases |b|
  {
    hide Apply;
    if b == [] {
      assert a + b == a;
    } else {
      assert a + b == (a + [b[0]]) + b[1..];
      assert (a + [b[0]])[..|a|] == a;
      RunGoesOn(a + [b[0]], b[1..]);
    }
  }

  lemma SoloEnters(s: State, t: TxnId, team: Id, challenge: Id, key: string)
    requires s.txns == map[]
    ensures ApplyAll(s, Entering(t, team, challenge, key))
            == if Fits(s, team, challenge, key)
               then Put(s, t, Txn(team, challenge, key, Admitted, s.challenges[challenge].Limit(), None)) else s
  {
    hide Stored, Solved, Attempts, EventAttempts, Solves, CommittedRow, Collides;
    var st := Statement(t);
    var s1 := Apply(s, Begin(t, team, challenge, key));
    var s2 := Apply(s1, LockTeam(t));
    var s3 := Apply(s2, st);
    var s4 := Apply(s3, st);
    var s5 := Apply(s4, st);
    var s6 := Apply(s5, st);
    assert s2 == Put(s, t, Txn(team, challenge, key, TeamLocked, 0, None));
    assert Drop(s2, t) == s;
    if Stored(s.rows, team, challenge, key) {
      assert s3 == s;
    } else if challenge !in s.challenges || Solved(s.rows, team, challenge) {
      assert s4 == s;
    } else if Attempts(s.rows, team, challenge) >= s.challenges[challenge].Limit() {
      assert s5 == s;
    }
    ApplySix(s, Begin(t, team, challenge, key), LockTeam(t), st);
  }

  lemma ApplySix(s: State, a: Step, b: Step, c: Step)
    ensures ApplyAll(s, [a, b, c, c, c, c]) == Apply(Apply(Apply(Apply(Apply(Apply(s, a), b), c), c), c), c)
  {
    hide Apply;
    ApplyFirst(s, a, [b, c, c, c, c]);
    ApplyFirst(Apply(s, a), b, [c, c, c, c]);
    ApplyFirst(Apply(Apply(s, a), b), c, [c, c, c]);
    ApplyFirst(Apply(Apply(Apply(s, a), b), c), c, [c, c]);
    ApplyFirst(Apply(Apply(Apply(Apply(s, a), b), c), c), c, [c]);
    assert [c] == [c] + [];
    ApplyFirst(Apply(Apply(Apply(Apply(Apply(s, a), b), c), c), c), c, []);
  }

  /** With nobody else about, the comparisons settle the flag, under the Challenge lock if it has matched. */
  lemma SoloCompares(s: State, t: TxnId, x: Txn, matched: bool)
    requires s.txns == map[] && x.pc == Admitted && x.locked.None? && x.challenge in s.challenges
    ensures var locked := if matched then Some(s.challenges[x.challenge].scoring) else None;
            Apply(Apply(Put(s, t, x), Compare(t, matched)), Compare(t, matched))
            == Put(s, t, x.(pc := Decided(matched), locked := locked))
  {
    hide RunStatement, CommittedRow;
  }

  lemma SoloDecides(s: State, t: TxnId, x: Txn, matched: bool)
    requires s.txns == map[] && x.pc == Admitted && x.locked.None? && x.challenge in s.challenges
    requires s.challenges[x.challenge].scoring.Valid()
    requires !Stored(s.rows, x.team, x.challenge, x.key) && !Solved(s.rows, x.team, x.challenge)
    ensures var s' := ApplyAll(Put(s, t, x), Deciding(t, matched));
            && s'.txns == map[] && s'.challenges == s.challenges && |s'.rows| == |s.rows| + 1
            && var r := s'.rows[|s.rows|]; var scoring := s.challenges[x.challenge].scoring;
            && s'.rows == s.rows + [r] && r.team == x.team && r.challenge == x.challenge && r.key == x.key
            && r.correct == matched
            && r.points == if matched then ChallengePoints(scoring, Solves(s.rows, x.challenge) + 1) else 0
  {
    hide Stored, Solved, Attempts, EventAttempts, Solves, ChallengePoints, ChallengeFree, TeamFree;
    SoloCompares(s, t, x, matched);
    ApplyFive(Put(s, t, x), Compare(t, matched), Statement(t), Commit(t));
    hide ApplyAll;
    var y := x.(pc := Decided(matched), locked := if matched then Some(s.challenges[x.challenge].scoring) else None);
    var s3 := Apply(Put(s, t, y), Statement(t));
    assert s3 == Put(s, t, y.(pc := Inserted(matched)));
    var s4 := Apply(s3, Statement(t));
    var pc := if matched then Counted(Solves(s.rows, x.challenge) + 1) else Inserted(false);
    assert s4 == Put(s, t, y.(pc := pc));
    assert Apply(s4, Commit(t)).txns == map[];
  }

  lemma ApplyFive(s: State, a: Step, b: Step, c: Step)
    ensures ApplyAll(s, [a, a, b, b, c]) == Apply(Apply(Apply(Apply(Apply(s, a), a), b), b), c)
  {
    hide Apply;
    ApplyFirst(s, a, [a, b, b, c]);
    ApplyFirst(Apply(s, a), a, [b, b, c]);
    ApplyFirst(Apply(Apply(s, a), a), b, [b, c]);
    ApplyFirst(Apply(Apply(Apply(s, a), a), b), b, [c]);
    assert [c] == [c] + [];
    ApplyFirst(Apply(Apply(Apply(Apply(s, a), a), b), b), c, []);
  }

  lemma {:induction false} NothingWithoutTransaction(s: State, t: TxnId, matched: bool)
    requires t !in s.txns
    ensures ApplyAll(s, Deciding(t, matched)) == s
  {
    hide RunStatement, CommittedRow;
    ApplyFive(s, Compare(t, matched), Statement(t), Commit(t));
  }

  /** A submission with nobody else about commits its row if and only if its key is new, its challenge there and
      unsolved, and the team within its limits; the row is right exactly when the flag has matched, and a right one has
      the points of the next solve. */
  lemma SoloSubmission(steps: seq<Step>, t: TxnId, team: Id, challenge: Id, key: string, matched: bool)
    requires Run(steps).txns == map[]
    ensures var s := Run(steps);
            var s' := Run(steps + (Entering(t, team, challenge, key) + Deciding(t, matched)));
            if !Fits(s, team, challenge, key) then s' == s
            else
              && s'.txns == map[] && s'.challenges == s.challenges && |s'.rows| == |s.rows| + 1
              && var r := s'.rows[|s.rows|]; var scoring := s.challenges[challenge].scoring;
              && s'.rows == s.rows + [r] && r.team == team && r.challenge == challenge && r.key == key
              && r.correct == matched && scoring.decay > 0
              && r.points == if matched then ChallengePoints(scoring, Solves(s.rows, challenge) + 1) else 0
  {
    var s := Run(steps);
    RunKeepsInv(steps);
    hide Apply, Run, ApplyAll, RowsOk, LocksExclude, Stored, Solved, Attempts, EventAttempts, Solves, ChallengePoints,
         Entering, Deciding;
    RunGoesOn(steps, Entering(t, team, challenge, key) + Deciding(t, matched));
    ApplyBoth(s, Entering(t, team, challenge, key), Deciding(t, matched));
    SoloEnters(s, t, team, challenge, key);
    if Fits(s, team, challenge, key) {
      var x := Txn(team, challenge, key, Admitted, s.challenges[challenge].Limit(), None);
      SoloDecides(s, t, x, matched);
    } else {
      NothingWithoutTransaction(s, t, matched);
    }
  }

  /** So solves do happen: once a challenge has been set up, the first right flag earns the points of a first solve. */
  lemma FirstSolve(terms: Terms, t: TxnId, team: Id, challenge: Id, key: string)
    requires terms.scoring.Valid()
    ensures var rows :=
              Run([Edit(challenge, terms)] + (Entering(t, team, challenge, key) + Deciding(t, true))).rows;
            |rows| == 1 && rows[0].correct && rows[0].team == team && rows[0].challenge == challenge
              && FairPrice(terms.scoring, 1, rows[0].points)
  {
    var steps := [Edit(challenge, terms)];
    assert steps[..0] == [];
    assert Run(steps) == State(map[challenge := terms], [], map[]);
    hide Apply, Run, ApplyAll, ChallengePoints, Entering, Deciding;
    SoloSubmission(steps, t, team, challenge, key, true);
    PointsAreFair(terms.scoring, 1);
  }
}
