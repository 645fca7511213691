/** Row locks of the write handlers, taken one row at a time and held to the end of the transaction.
    Every handler asks for those of its rows that exist in strictly increasing rank, so no set of transactions
    can wait for each other in a circle and some unfinished transaction can always go on. */
module LockOrder {
  import opened Basics

  type Id = nat

  datatype Row =
    | EventRow
    | CodeRow(id: Id)
    | UserRow(id: Id)
    | MembershipRow(user: Id)
    | TeamRow(id: Id)
    | ChallengeRow(id: Id)
  {
    /** The table's place in the canonical order, then the key the handlers sort by. */
    function Table(): nat {
      match this
      case EventRow => 0
      case CodeRow(_) => 1
      case UserRow(_) => 2
      case MembershipRow(_) => 3
      case TeamRow(_) => 4
      case ChallengeRow(_) => 5
    }

    function Key(): nat {
      match this
      case EventRow => 0
      case CodeRow(id) => id
      case UserRow(id) => id
      case MembershipRow(user) => user
      case TeamRow(id) => id
      case ChallengeRow(id) => id
    }
  }

  predicate Less(a: Row, b: Row) {
    a.Table() < b.Table() || (a.Table() == b.Table() && a.Key() < b.Key())
  }

  datatype Mode = Share | Exclusive

  datatype Lock = Lock(row: Row, mode: Mode)

  predicate Conflict(a: Lock, b: Lock) {
    a.row == b.row && (a.mode == Exclusive || b.mode == Exclusive)
  }

  // ---------- what each handler locks, in the order it asks ----------

  datatype Handler =
    | CreateTeam(user: Id)
    | JoinTeam(user: Id, team: Id)
    | OwnTeam(user: Id, team: Id)
    | ManageMember(actor: Id, target: Id, team: Id)
    | SubmitWrong(user: Id, team: Id)
    | SubmitCorrect(user: Id, team: Id, challenge: Id)
    | EditEvent
    | EditChallenge(challenge: Id)
    | RevokeCode(code: Id)
    | Register(access: Option<Id>)
    | ChangeAccount(user: Id)

  function Script(h: Handler): seq<Lock> {
    match h
    case CreateTeam(user) =>
      [Lock(EventRow, Share), Lock(UserRow(user), Exclusive), Lock(MembershipRow(user), Exclusive)]
    case JoinTeam(user, team) =>
      [Lock(EventRow, Share), Lock(UserRow(user), Exclusive), Lock(MembershipRow(user), Exclusive),
        Lock(TeamRow(team), Exclusive)]
    case OwnTeam(user, team) => // rotate-invite and leave
      [Lock(EventRow, Share), Lock(UserRow(user), Exclusive), Lock(MembershipRow(user), Exclusive),
        Lock(TeamRow(team), Exclusive)]
    case ManageMember(actor, target, team) => // transfer-owner and remove-member: sorted(set(user_ids))
      var first, second := Min(actor, target), Max(actor, target);
      if actor == target then
        [Lock(EventRow, Share), Lock(UserRow(actor), Exclusive), Lock(MembershipRow(actor), Exclusive),
          Lock(TeamRow(team), Exclusive)]
      else
        [Lock(EventRow, Share), Lock(UserRow(first), Exclusive), Lock(UserRow(second), Exclusive),
         Lock(MembershipRow(first), Exclusive), Lock(MembershipRow(second), Exclusive), Lock(TeamRow(team), Exclusive)]
    case SubmitWrong(user, team) =>
      [Lock(EventRow, Share), Lock(UserRow(user), Exclusive), Lock(MembershipRow(user), Exclusive),
        Lock(TeamRow(team), Exclusive)]
    case SubmitCorrect(user, team, challenge) =>
      [Lock(EventRow, Share), Lock(UserRow(user), Exclusive), Lock(MembershipRow(user), Exclusive),
        Lock(TeamRow(team), Exclusive),
       Lock(ChallengeRow(challenge), Exclusive)]
    case EditEvent => [Lock(EventRow, Exclusive)]
    case EditChallenge(challenge) => [Lock(EventRow, Exclusive), Lock(ChallengeRow(challenge), Exclusive)]
    case RevokeCode(code) => [Lock(EventRow, Exclusive), Lock(CodeRow(code), Exclusive)]
    case Register(access) =>
      [Lock(EventRow, Exclusive)] + (if access.Some? then [Lock(CodeRow(access.value), Exclusive)] else [])
    case ChangeAccount(user) => [Lock(UserRow(user), Exclusive)] // login, logout, change-password, status, set-password
  }

  predicate Increasing(script: seq<Lock>) {
    forall i, j :: 0 <= i < j < |script| ==> Less(script[i].row, script[j].row)
  }

  lemma ScriptsIncrease(h: Handler)
    ensures Increasing(Script(h))
  {
  }

  /** Some of the locks of b, in the order of b. */
  predicate Among(a: seq<Lock>, b: seq<Lock>) {
    a == [] || (b != [] && ((a[0] == b[0] && Among(a[1..], b[1..])) || Among(a, b[1..])))
  }

  lemma {:induction false} AmongIncreases(a: seq<Lock>, b: seq<Lock>)
    requires Among(a, b) && Increasing(b)
    ensures Increasing(a) && forall i :: 0 <= i < |a| ==> a[i] in b
    decreases |b|
  {
    if a != [] {
      if a[0] == b[0] && Among(a[1..], b[1..]) {
        AmongIncreases(a[1..], b[1..]);
        forall i, j | 0 <= i < j < |a| ensures Less(a[i].row, a[j].row) {
          assert a[j] == a[1..][j - 1];
          if i > 0 { assert a[i] == a[1..][i - 1]; }
        }
      } else {
        AmongIncreases(a, b[1..]);
      }
    }
  }

  /** A SELECT ... FOR UPDATE locks what it finds. Whichever rows of its script are missing, as the membership of a
      user who joins or of an account without a team, a handler asks for the others in rising rank. */
  lemma HandlersIncrease(h: Handler, asked: seq<Lock>)
    requires Among(asked, Script(h))
    ensures Increasing(asked)
  {
    ScriptsIncrease(h);
    AmongIncreases(asked, Script(h));
  }

  // ---------- running transactions ----------

  /** A transaction holds the first `held` locks of its script; at the end of it nothing more is asked. */
  datatype Txn = Txn(script: seq<Lock>, held: nat) {
    predicate Valid() { held <= |script| && Increasing(script) }

    predicate Asking() { held < |script| }

    function Next(): Lock requires Asking() { script[held] }
  }

  type TxnId = nat

  type System = map<TxnId, Txn>

  predicate Valid(s: System) {
    forall t :: t in s ==> s[t].Valid()
  }

  predicate HoldsConflicting(txn: Txn, want: Lock)
    requires txn.Valid()
  {
    exists i :: 0 <= i < txn.held && Conflict(txn.script[i], want)
  }

  /** t asks for a lock that u holds in a conflicting mode. */
  predicate WaitsFor(s: System, t: TxnId, u: TxnId)
    requires Valid(s)
  {
    && t in s && u in s && t != u
    && s[t].Asking() && HoldsConflicting(s[u], s[t].Next())
  }

  ghost predicate Blocked(s: System, t: TxnId)
    requires Valid(s)
  {
    exists u :: WaitsFor(s, t, u)
  }

  datatype Step = Begin(t: TxnId, handler: Handler, asked: seq<Lock>) | Acquire(t: TxnId) | End(t: TxnId)

  /** A lock is granted only when nobody else holds it in a conflicting mode; commit, rollback and any
      refusal on the way end the transaction and free everything it held. */
  ghost predicate Next(s: System, step: Step, s': System)
    requires Valid(s)
  {
    match step
    case Begin(t, handler, asked) => t !in s && Among(asked, Script(handler)) && s' == s[t := Txn(asked, 0)]
    case Acquire(t) => t in s && s[t].Asking() && !Blocked(s, t) && s' == s[t := s[t].(held := s[t].held + 1)]
    case End(t) => t in s && s' == s - {t}
  }

  ghost predicate Reachable(trace: seq<System>, steps: seq<Step>) {
    && |trace| == |steps| + 1 && trace[0] == map[]
    && forall i :: 0 <= i < |steps| ==> Valid(trace[i]) && Next(trace[i], steps[i], trace[i + 1])
  }

  /** Locks really exclude each other: no two transactions ever hold conflicting locks. */
  ghost predicate Exclusion(s: System)
    requires Valid(s)
  {
    forall t, u, i :: t in s && u in s && t != u && 0 <= i < s[t].held ==> !HoldsConflicting(s[u], s[t].script[i])
  }

  lemma AcquireKeepsExclusion(s: System, t: TxnId)
    requires Valid(s) && Exclusion(s) && t in s && s[t].Asking() && !Blocked(s, t)
    ensures var s' := s[t := s[t].(held := s[t].held + 1)]; Valid(s') && Exclusion(s')
  {
    var s' := s[t := s[t].(held := s[t].held + 1)];
    forall a, b, i | a in s' && b in s' && a != b && 0 <= i < s'[a].held
      ensures !HoldsConflicting(s'[b], s'[a].script[i])
    {
      assert a != t ==> !WaitsFor(s, t, a);
      assert b != t ==> !WaitsFor(s, t, b);
      assert i < s[a].held ==> !HoldsConflicting(s[b], s[a].script[i]);
    }
  }

  lemma StepKeepsExclusion(s: System, step: Step, s': System)
    requires Valid(s) && Exclusion(s) && Next(s, step, s')
    ensures Valid(s') && Exclusion(s')
  {
    hide Script, Among;
    match step
    case Begin(_, handler, asked) => HandlersIncrease(handler, asked);
    case Acquire(t) => AcquireKeepsExclusion(s, t);
    case End(_) =>
  }

  lemma {:induction false} ReachableExclusion(trace: seq<System>, steps: seq<Step>)
    requires Reachable(trace, steps)
    ensures Valid(trace[|steps|]) && Exclusion(trace[|steps|])
    decreases |steps|
  {
    var n := |steps|;
    if n > 0 {
      ReachableExclusion(trace[..n], steps[..n - 1]);
      StepKeepsExclusion(trace[n - 1], steps[n - 1], trace[n]);
    }
  }

  /** A transaction that keeps others waiting asks, if anything, for a higher row than they do. */
  lemma WaitingRises(s: System, t: TxnId, u: TxnId)
    requires Valid(s) && WaitsFor(s, t, u) && s[u].Asking()
    ensures Less(s[t].Next().row, s[u].Next().row)
  {
    var i :| 0 <= i < s[u].held && Conflict(s[u].script[i], s[t].Next());
    assert Less(s[u].script[i].row, s[u].Next().row);
  }

  lemma {:induction false} ChainRises(s: System, chain: seq<TxnId>)
    requires Valid(s) && |chain| >= 2
    requires forall i :: 0 <= i < |chain| - 1 ==> WaitsFor(s, chain[i], chain[i + 1])
    requires (forall i :: 0 <= i < |chain| ==> chain[i] in s) && s[chain[|chain| - 1]].Asking()
    ensures s[chain[0]].Asking() && Less(s[chain[0]].Next().row, s[chain[|chain| - 1]].Next().row)
    decreases |chain|
  {
    assert WaitsFor(s, chain[0], chain[1]);
    if |chain| > 2 {
      var rest := chain[1..];
      assert forall i :: 0 <= i < |rest| ==> rest[i] == chain[i + 1];
      ChainRises(s, rest);
    }
    WaitingRises(s, chain[0], chain[1]);
  }

  /** Whatever transactions run, in whatever order, no wait cycle can form. */
  lemma NoWaitCycle(trace: seq<System>, steps: seq<Step>, chain: seq<TxnId>)
    requires Reachable(trace, steps) && |chain| >= 2 && chain[0] == chain[|chain| - 1]
    ensures Valid(trace[|steps|])
    ensures exists i :: 0 <= i < |chain| - 1 && !WaitsFor(trace[|steps|], chain[i], chain[i + 1])
  {
    ReachableExclusion(trace, steps);
    var s := trace[|steps|];
    if forall i :: 0 <= i < |chain| - 1 ==> WaitsFor(s, chain[i], chain[i + 1]) {
      assert WaitsFor(s, chain[0], chain[1]);
      forall i | 0 <= i < |chain| ensures chain[i] in s {
        assert i < |chain| - 1 ==> WaitsFor(s, chain[i], chain[i + 1]);
      }
      ChainRises(s, chain);
    }
  }

  /** Of the transactions still asking, one asks for a row at least as high as all the others. */
  lemma {:induction false} HighestAsker(s: System, asking: set<TxnId>) returns (top: TxnId)
    requires Valid(s) && asking != {} && forall t :: t in asking ==> t in s && s[t].Asking()
    ensures top in asking && forall t :: t in asking ==> !Less(s[top].Next().row, s[t].Next().row)
    decreases asking
  {
    top :| top in asking;
    var others := asking - {top};
    if others != {} {
      var best := HighestAsker(s, others);
      if !Less(s[best].Next().row, s[top].Next().row) {
        forall t | t in asking ensures !Less(s[best].Next().row, s[t].Next().row) {
          assert t == top || t in others;
        }
        top := best;
      } else {
        forall t | t in asking ensures !Less(s[top].Next().row, s[t].Next().row) {
          assert t == top || t in others;
        }
      }
    } else {
      assert forall t :: t in asking ==> t == top || t in others;
    }
  }

  /** Progress: while a transaction runs, one of them has every lock it wants or can get its next one. */
  lemma {:induction false} SomebodyCanGoOn(trace: seq<System>, steps: seq<Step>)
    requires Reachable(trace, steps) && trace[|steps|] != map[]
    ensures Valid(trace[|steps|])
    ensures exists t :: t in trace[|steps|] && (!trace[|steps|][t].Asking() || !Blocked(trace[|steps|], t))
  {
    ReachableExclusion(trace, steps);
    var s := trace[|steps|];
    var some :| some in s;
    if forall t :: t in s ==> s[t].Asking() {
      var top := HighestAsker(s, s.Keys);
      forall u | u in s ensures !WaitsFor(s, top, u) {
        if WaitsFor(s, top, u) { WaitingRises(s, top, u); }
      }
    }
  }
}
