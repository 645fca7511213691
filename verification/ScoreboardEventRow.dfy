/** What the cache protocol promises about the event row, which the handler reads before the generation: when a
    served board's row is current, and exactly when it is not. */
module ScoreboardEventRow {
  import opened Basics
  import opened Schema
  import opened Services
  import E = EphemeralStore
  import opened ScoreboardCache

  // ---------- every board knows the request that built it ----------

  function BoardIn(pc: Pc): Option<Board> {
    match pc
    case CheckGeneration(b) => Some(b)
    case Publish(b) => Some(b)
    case Release(Served(b)) => Some(b)
    case Finished(Served(b)) => Some(b)
    case _ => None
  }

  predicate Known(s: Sys, b: Board) {
    b.origin.request in s.requests && s.requests[b.origin.request].origin == b.origin
  }

  ghost predicate OriginsOk(s: Sys) {
    && |s.history| == |s.commits| + 1 && s.history[|s.commits|] == s.event
    && (forall r :: r in s.requests ==>
          var o := s.requests[r].origin; o.request == r && o.seen <= |s.commits| && o.event == s.history[o.seen])
    && (forall r :: r in s.requests && BoardIn(s.requests[r].pc).Some? ==> Known(s, BoardIn(s.requests[r].pc).value))
    && (forall k :: k in s.store.values && s.store.values[k].value.Json? ==>
          Known(s, s.store.values[k].value.payload.payload))
  }

  /** A request keeps its beginning, and the past keeps its rows. */
  predicate Continued(s: Sys, t: Sys) {
    && (forall r :: r in s.requests ==> r in t.requests && t.requests[r].origin == s.requests[r].origin)
    && s.history <= t.history && |s.commits| <= |t.commits|
  }

  lemma StepContinues(s: Sys, step: Step)
    ensures Continued(s, Apply(s, step))
  {
    hide E.JsonAt, E.LeaseTaken, E.LeaseReturned, E.WithJson, DoneBy, E.CounterAt;
  }

  /** The boards a request's step hands on are its own new one, the one it holds, or the cached one. */
  lemma ProgressBoards(s: Sys, q: Request)
    ensures var (store, q') := Progress(s, q);
            && q'.origin == q.origin
            && (forall k :: k in store.values ==>
                  || (k in s.store.values && store.values[k] == s.store.values[k])
                  || (store.values[k].value.Json? && Some(store.values[k].value.payload.payload) == BoardIn(q.pc)))
            && (BoardIn(q'.pc).Some? ==>
                  || BoardIn(q'.pc) == BoardIn(q.pc) || BoardIn(q'.pc).value.origin == q.origin
                  || exists k :: k in s.store.values && s.store.values[k].value.Json?
                       && s.store.values[k].value.payload.payload == BoardIn(q'.pc).value)
  {
    hide DoneBy, CachePhase;
  }

  lemma ProceedKeepsOrigins(s: Sys, r: nat)
    requires OriginsOk(s) && r in s.requests
    ensures OriginsOk(Apply(s, Proceed(r)))
  {
    hide Progress, BoardIn;
    ProgressBoards(s, s.requests[r]);
  }

  lemma ArriveKeepsOrigins(s: Sys, r: nat)
    requires OriginsOk(s)
    ensures OriginsOk(Apply(s, Arrive(r)))
  {
    hide E.CounterAt;
  }

  lemma FailKeepsOrigins(s: Sys, r: nat)
    requires OriginsOk(s)
    ensures OriginsOk(Apply(s, Fail(r)))
  {
  }

  /** A new row, if any, goes on top; requests stay, and the cache gains nothing. */
  lemma OriginsFrame(s: Sys, t: Sys)
    requires OriginsOk(s) && t.requests == s.requests && s.history <= t.history && |s.commits| <= |t.commits|
    requires |t.history| == |t.commits| + 1 && t.history[|t.commits|] == t.event
    requires forall k :: k in t.store.values ==> k in s.store.values && t.store.values[k] == s.store.values[k]
    ensures OriginsOk(t)
  {
    hide BoardIn;
  }

  lemma StepKeepsOrigins(s: Sys, step: Step)
    requires OriginsOk(s)
    ensures OriginsOk(Apply(s, step))
  {
    match step
    case Proceed(r) => if r in s.requests { ProceedKeepsOrigins(s, r); }
    case Arrive(r) => ArriveKeepsOrigins(s, r);
    case Fail(r) => FailKeepsOrigins(s, r);
    case _ =>
      hide Progress, Raised, Beginning;
      OriginsFrame(s, Apply(s, step));
  }

  lemma {:induction false} RunKeepsOrigins(s: Sys, steps: seq<Step>)
    requires OriginsOk(s)
    ensures OriginsOk(Run(s, steps))
  {
    hide OriginsOk, Apply;
    if steps != [] {
      RunKeepsOrigins(s, steps[..|steps| - 1]);
      StepKeepsOrigins(Run(s, steps[..|steps| - 1]), steps[|steps| - 1]);
    }
  }

  // ---------- a row that covers every completed commit ----------

  /** If the counter had not moved between the arrival of the building request and its generation read, the board's
      event row is the one after all commits that had completed when the served reader last read the counter. */
  lemma RowIsCurrentWhenUnmoved(event: Event, now: Time, ttl: real, steps: seq<Step>, r: nat, b: Board)
    requires var s := Run(Start(event, now, ttl), steps);
             r in s.requests && Answered(s.requests[r], b) && b.origin.base == s.requests[r].generation
    ensures var s := Run(Start(event, now, ttl), steps);
            && (forall i :: i in s.requests[r].completed ==> i < b.origin.seen)
            && b.origin.seen < |s.history| && b.origin.event == s.history[b.origin.seen]
  {
    var s0 := Start(event, now, ttl);
    RunKeepsCache(s0, steps);
    RunKeepsOrigins(s0, steps);
    hide Run, CachePhase;
    assert Known(Run(s0, steps), b);
  }

  // ---------- exactly when it does not ----------

  /** The step at which request r arrived. */
  predicate IsArrival(s: Sys, steps: seq<Step>, a: nat, r: nat) {
    a < |steps| && steps[a] == Arrive(r) && r !in Run(s, steps[..a]).requests
  }

  /** The step that made commit i. */
  predicate IsCommit(s: Sys, steps: seq<Step>, k: nat, i: nat) {
    k < |steps| && steps[k].CommitRows? && |Run(s, steps[..k]).commits| == i
  }

  lemma {:induction false} RunContinues(s: Sys, steps: seq<Step>, n: nat)
    requires n <= |steps|
    ensures Continued(Run(s, steps[..n]), Run(s, steps))
  {
    hide Apply, Continued;
    if n == |steps| {
      assert steps[..n] == steps;
      ContinuedSelf(Run(s, steps));
    } else {
      var m := |steps| - 1;
      assert steps[..m][..n] == steps[..n];
      RunContinues(s, steps[..m], n);
      StepContinues(Run(s, steps[..m]), steps[m]);
      ContinuedOn(Run(s, steps[..n]), Run(s, steps[..m]), Run(s, steps));
    }
  }

  lemma ContinuedSelf(s: Sys)
    ensures Continued(s, s)
  {
  }

  lemma ContinuedOn(s: Sys, t: Sys, u: Sys)
    requires Continued(s, t) && Continued(t, u)
    ensures Continued(s, u)
  {
  }

  /** What a request recorded at its arrival is still there at the end. */
  lemma ArrivalIsBeginning(s: Sys, steps: seq<Step>, a: nat, r: nat)
    requires IsArrival(s, steps, a, r)
    ensures r in Run(s, steps).requests && Run(s, steps).requests[r].origin == Beginning(Run(s, steps[..a]), r)
  {
    assert steps[..a + 1] == steps[..a] + [steps[a]];
    RunMore(s, steps[..a], steps[a]);
    RunContinues(s, steps, a + 1);
    hide Run, Beginning;
  }

  /** The row after commit i stands behind the row before it from then on. */
  lemma CommitIsCounted(s: Sys, steps: seq<Step>, k: nat, i: nat)
    requires IsCommit(s, steps, k, i)
    ensures |Run(s, steps[..k + 1]).commits| == i + 1
  {
    assert steps[..k + 1] == steps[..k] + [steps[k]];
    RunMore(s, steps[..k], steps[k]);
    hide Run;
  }

  lemma {:induction false} ArrivalExists(s: Sys, steps: seq<Step>, r: nat) returns (a: nat)
    requires r !in s.requests && r in Run(s, steps).requests
    ensures IsArrival(s, steps, a, r)
  {
    var m := |steps| - 1;
    if r in Run(s, steps[..m]).requests {
      a := ArrivalExists(s, steps[..m], r);
      assert steps[..m][..a] == steps[..a];
    } else {
      hide Progress;
      a := m;
    }
  }

  lemma {:induction false} CommitExists(s: Sys, steps: seq<Step>, i: nat) returns (k: nat)
    requires s.commits == [] && i < |Run(s, steps).commits|
    ensures IsCommit(s, steps, k, i)
  {
    var m := |steps| - 1;
    if i < |Run(s, steps[..m]).commits| {
      k := CommitExists(s, steps[..m], i);
      assert steps[..m][..k] == steps[..k];
    } else {
      hide Progress;
      k := m;
    }
  }

  /** A commit was made before or after the arrival, and the recorded count tells which. */
  lemma CountTellsOrder(s: Sys, steps: seq<Step>, a: nat, r: nat, k: nat, i: nat)
    requires IsArrival(s, steps, a, r) && IsCommit(s, steps, k, i)
    ensures r in Run(s, steps).requests
    ensures Run(s, steps).requests[r].origin.seen <= i <==> a < k
  {
    ArrivalIsBeginning(s, steps, a, r);
    CommitIsCounted(s, steps, k, i);
    if a < k {
      RunContinues(s, steps[..k], a);
      assert steps[..k][..a] == steps[..a];
    } else {
      RunContinues(s, steps[..a], k + 1);
      assert steps[..a][..k + 1] == steps[..k + 1];
    }
  }

  /** A board misses a commit when the row it was built from reflects fewer commits. */
  predicate Misses(b: Board, i: nat) {
    b.origin.seen <= i
  }

  /** A served board's event row misses a commit that had completed when the served reader last read the counter
      if and only if that commit was made after the building request arrived. Both steps are in the run, and the row
      is the one that stood at that arrival. */
  lemma RowMissesExactly(event: Event, now: Time, ttl: real, steps: seq<Step>, r: nat, b: Board, i: nat)
    requires var s := Run(Start(event, now, ttl), steps);
             r in s.requests && Answered(s.requests[r], b) && i in s.requests[r].completed
    ensures var s0 := Start(event, now, ttl);
            && (exists a: nat :: IsArrival(s0, steps, a, b.origin.request))
            && (exists k: nat :: IsCommit(s0, steps, k, i))
            && b.origin.seen < |Run(s0, steps).history| && b.origin.event == Run(s0, steps).history[b.origin.seen]
            && (forall a: nat, k: nat :: IsArrival(s0, steps, a, b.origin.request) && IsCommit(s0, steps, k, i) ==>
                  && (Misses(b, i) <==> a < k)
                  && b.origin.event == Run(s0, steps[..a]).event)
  {
    var s0 := Start(event, now, ttl);
    var s := Run(s0, steps);
    RunKeepsOrigins(s0, steps);
    RunKeepsCache(s0, steps);
    assert Known(s, b);
    var arrival := ArrivalExists(s0, steps, b.origin.request);
    var commit := CommitExists(s0, steps, i);
    assert IsArrival(s0, steps, arrival, b.origin.request) && IsCommit(s0, steps, commit, i);
    hide Run, OriginsOk, CacheOk, IsArrival, IsCommit;
    forall a: nat, k: nat | IsArrival(s0, steps, a, b.origin.request) && IsCommit(s0, steps, k, i)
      ensures (Misses(b, i) <==> a < k) && b.origin.event == Run(s0, steps[..a]).event
    {
      CountTellsOrder(s0, steps, a, b.origin.request, k, i);
      ArrivalIsBeginning(s0, steps, a, b.origin.request);
    }
  }
}
