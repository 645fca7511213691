/** The public scoreboard cache: the handler `scoreboard` of backend/src/alpha/routes_participant.py
    interleaved, one store call or one query at a time, with other readers and builders, with commits
    whose generation increment is a separate later step, with deletes, expiry and store failures. */
module ScoreboardCache {
  import opened Basics
  import opened Schema
  import opened Services
  import opened EphemeralStore

  const LEASE_SECONDS := 45.0

  datatype Key = Public(phase: Phase) | Generation | Build(phase: Phase)

  /** How a request began: the event row and the instant it read; and, for the record, which request it
      was, how many commits that row reflects and where the counter stood. */
  datatype Origin = Origin(request: nat, event: Event, at: Time, seen: nat, base: nat) {
    function Phase(): Phase { CachePhase(event, at) }
  }

  /** A built board, by what it was built from: the beginning of its request, and the number of commits
      seen by each of the two statements of the aggregation. */
  datatype Board = Board(origin: Origin, total: nat, rows: nat)

  datatype Envelope = Envelope(generation: nat, payload: Board)

  /** A commit that touched solves, challenges or the event, and the fate of its increment: still to
      come, done with the value it produced, or lost (swallowed, or never issued by the import command). */
  datatype Commit = Pending | Bumped(generation: nat) | Lost

  datatype Outcome = Served(board: Board) | Busy | Changed | Unavailable

  /** The next thing a request does. */
  datatype Pc =
    | ReadGeneration | ReadCache | TakeLease
    | LoserGeneration | LoserCache
    | BuilderGeneration | BuilderCache
    | QueryTotal | QueryRows(total: nat) | CheckGeneration(board: Board) | Publish(built: Board)
    | Release(result: Outcome)
    | Finished(outcome: Outcome)

  /** `generation` is the counter value this request last read, and `completed` records which commits
      had completed their increment at that moment. */
  datatype Request = Request(
    origin: Origin, pc: Pc, generation: nat, completed: set<nat>, token: nat, leaseUntil: Time)
  {
    function Phase(): Phase { origin.Phase() }

    /** It has read the counter and not been answered yet. */
    predicate Reading() { !pc.ReadGeneration? && !pc.Release? && !pc.Finished? }

    predicate Building() {
      pc.BuilderGeneration? || pc.BuilderCache? || pc.QueryTotal? || pc.QueryRows? || pc.CheckGeneration?
      || pc.Publish? || pc.Release?
    }
  }

  /** `history` holds the event row after each number of commits, the first one before any. */
  datatype Sys = Sys(
    now: Time, event: Event, history: seq<Event>, commits: seq<Commit>, store: Store<Key, Envelope>,
    requests: map<nat, Request>, nextToken: nat, ttl: real)

  datatype Step =
    | Arrive(r: nat)
    | Proceed(r: nat)
    | Fail(r: nat)
    | CommitRows(event: Event)
    | Bump(i: nat)
    | Lose(i: nat)
    | Invalidate(phase: Phase)
    | Elapse(dt: real)

  function Counter(s: Sys): nat { CounterAt(s.store, Generation) }

  /** The commits whose increment had completed when the counter stood at g. */
  function DoneBy(commits: seq<Commit>, g: nat): set<nat> {
    set i: nat | i < |commits| && commits[i].Bumped? && commits[i].generation <= g
  }

  // ---------- one step of one request ----------

  function ReadingCounter(s: Sys, q: Request, next: Pc): Request {
    q.(pc := next, generation := Counter(s), completed := DoneBy(s.commits, Counter(s)))
  }

  /** get_json followed by cached_payload */
  function Lookup(s: Sys, q: Request): (Store<Key, Envelope>, Option<Board>) {
    var (store, cached) := JsonAt(s.store, Public(q.Phase()), s.now);
    (store, if cached.Some? && cached.value.generation == q.generation then Some(cached.value.payload) else None)
  }

  function Progress(s: Sys, q: Request): (Store<Key, Envelope>, Request) {
    match q.pc
    case ReadGeneration => (s.store, ReadingCounter(s, q, ReadCache))
    case ReadCache =>
      var (store, hit) := Lookup(s, q);
      (store, q.(pc := if hit.Some? then Finished(Served(hit.value)) else TakeLease))
    case TakeLease =>
      var (store, token) := LeaseTaken(s.store, Build(q.Phase()), LEASE_SECONDS, s.now, s.nextToken);
      (store, if token.None? then q.(pc := LoserGeneration)
              else q.(pc := BuilderGeneration, token := token.value, leaseUntil := s.now + LEASE_SECONDS))
    case LoserGeneration => (s.store, ReadingCounter(s, q, LoserCache))
    case LoserCache =>
      var (store, hit) := Lookup(s, q);
      (store, q.(pc := Finished(if hit.Some? then Served(hit.value) else Busy)))
    case BuilderGeneration => (s.store, ReadingCounter(s, q, BuilderCache))
    case BuilderCache =>
      var (store, hit) := Lookup(s, q);
      (store, q.(pc := if hit.Some? then Release(Served(hit.value)) else QueryTotal))
    case QueryTotal => (s.store, q.(pc := QueryRows(|s.commits|)))
    case QueryRows(total) => (s.store, q.(pc := CheckGeneration(Board(q.origin, total, |s.commits|))))
    case CheckGeneration(board) =>
      (s.store, if Counter(s) == q.generation then ReadingCounter(s, q, Publish(board)) else q.(pc := Release(Changed)))
    case Publish(board) =>
      (WithJson(s.store, Public(q.Phase()), Envelope(q.generation, board), s.ttl, s.now),
        q.(pc := Release(Served(board))))
    case Release(result) => (LeaseReturned(s.store, Build(q.Phase()), q.token).0, q.(pc := Finished(result)))
    case Finished(_) => (s.store, q)
  }

  /** cached_payload(get_json(...)) */
  method CachedPayload(store: MemoryStore<Key, Envelope>, q: Request, now: Time) returns (hit: Option<Board>)
    modifies store`values
    ensures forall s: Sys :: s.store == old(store.State()) && s.now == now ==> (store.State(), hit) == Lookup(s, q)
  {
    var cached := store.GetJson(Public(q.Phase()), now);
    if cached.Some? && cached.value.generation == q.generation {
      return Some(cached.value.payload);
    }
    return None;
  }

  /** The next call of the handler, on the store itself; what it reads of the database comes with s. */
  method NextCall(store: MemoryStore<Key, Envelope>, s: Sys, q: Request) returns (next: Request)
    requires store.State() == s.store
    modifies store
    ensures (store.State(), next) == Progress(s, q)
  {
    hide JsonAt, DoneBy, CachePhase;
    var now := s.now;
    var counter := if Generation in store.counters then store.counters[Generation] else 0;
    var seen := q.(generation := counter, completed := DoneBy(s.commits, counter));
    match q.pc
    case ReadGeneration => next := seen.(pc := ReadCache);
    case ReadCache =>
      var hit := CachedPayload(store, q, now);
      next := if hit.Some? then q.(pc := Finished(Served(hit.value))) else q.(pc := TakeLease);
    case TakeLease =>
      var token := store.AcquireLease(Build(q.Phase()), LEASE_SECONDS, now, s.nextToken);
      next := q.(pc := LoserGeneration);
      if token.Some? {
        next := q.(pc := BuilderGeneration, token := token.value, leaseUntil := now + LEASE_SECONDS);
      }
    case LoserGeneration => next := seen.(pc := LoserCache);
    case LoserCache =>
      var hit := CachedPayload(store, q, now);
      next := if hit.Some? then q.(pc := Finished(Served(hit.value))) else q.(pc := Finished(Busy));
    case BuilderGeneration => next := seen.(pc := BuilderCache);
    case BuilderCache =>
      var hit := CachedPayload(store, q, now);
      next := if hit.Some? then q.(pc := Release(Served(hit.value))) else q.(pc := QueryTotal);
    case QueryTotal => next := q.(pc := QueryRows(|s.commits|));
    case QueryRows(total) => next := q.(pc := CheckGeneration(Board(q.origin, total, |s.commits|)));
    case CheckGeneration(board) =>
      next := if counter == q.generation then seen.(pc := Publish(board)) else q.(pc := Release(Changed));
    case Publish(board) =>
      store.SetJson(Public(q.Phase()), Envelope(q.generation, board), s.ttl, now);
      next := q.(pc := Release(Served(board)));
    case Release(result) =>
      var released := store.ReleaseLease(Build(q.Phase()), q.token);
      next := q.(pc := Finished(result));
    case Finished(_) => next := q;
  }

  /** A raised exception: 503, and the lease is given back if it was taken and its release does not fail too. */
  function Raised(q: Request): Request {
    match q.pc
    case Finished(_) => q
    case Release(result) => q.(pc := Finished(result))
    case _ => q.(pc := if q.Building() then Release(Unavailable) else Finished(Unavailable))
  }

  function Beginning(s: Sys, r: nat): Origin {
    Origin(r, s.event, s.now, |s.commits|, Counter(s))
  }

  function Apply(s: Sys, step: Step): Sys {
    match step
    case Arrive(r) =>
      if r in s.requests then s
      else s.(requests := s.requests[r := Request(Beginning(s, r), ReadGeneration, 0, {}, 0, s.now)])
    case Proceed(r) =>
      if r !in s.requests then s
      else
        var (store, q) := Progress(s, s.requests[r]);
        s.(store := store, requests := s.requests[r := q], nextToken := s.nextToken + 1)
    case Fail(r) =>
      if r !in s.requests then s else s.(requests := s.requests[r := Raised(s.requests[r])])
    case CommitRows(event) => s.(event := event, history := s.history + [event], commits := s.commits + [Pending])
    case Bump(i) =>
      if i < |s.commits| && s.commits[i].Pending? then
        var (store, value) := Incremented(s.store, Generation);
        s.(store := store, commits := s.commits[i := Bumped(value)])
      else s
    case Lose(i) =>
      if i < |s.commits| && s.commits[i].Pending? then s.(commits := s.commits[i := Lost]) else s
    case Invalidate(phase) => s.(store := WithoutKey(s.store, Public(phase)))
    case Elapse(dt) => if dt > 0.0 then s.(now := s.now + dt) else s
  }

  function Run(s: Sys, steps: seq<Step>): Sys {
    if steps == [] then s else Apply(Run(s, steps[..|steps| - 1]), steps[|steps| - 1])
  }

  function Start(event: Event, now: Time, ttl: real): Sys {
    Sys(now, event, [event], [], Store(map[], map[], map[]), map[], 0, ttl)
  }

  // ---------- the invariant ----------

  /** n commits include every one whose increment had completed when the counter stood at g. */
  predicate Covers(commits: seq<Commit>, g: nat, n: nat) {
    n <= |commits| && forall i :: 0 <= i < |commits| && commits[i].Bumped? && commits[i].generation <= g ==> i < n
  }

  predicate Sound(commits: seq<Commit>, g: nat, phase: Phase, b: Board) {
    Covers(commits, g, b.total) && Covers(commits, g, b.rows) && b.origin.Phase() == phase
    && Covers(commits, b.origin.base, b.origin.seen) && b.origin.base <= g
  }

  predicate RequestOk(commits: seq<Commit>, counter: nat, q: Request) {
    && q.generation <= counter && q.origin.base <= counter && Covers(commits, q.origin.base, q.origin.seen)
    && (q.Reading() ==> q.origin.base <= q.generation)
    && q.completed == DoneBy(commits, q.generation)
    && match q.pc
       case QueryRows(total) => Covers(commits, q.generation, total)
       case CheckGeneration(board) => Sound(commits, q.generation, q.Phase(), board)
       case Publish(board) => Sound(commits, q.generation, q.Phase(), board)
       case Release(result) => result.Served? ==> Sound(commits, q.generation, q.Phase(), result.board)
       case Finished(outcome) => outcome.Served? ==> Sound(commits, q.generation, q.Phase(), outcome.board)
       case _ => true
  }

  predicate CommitsOk(commits: seq<Commit>, counter: nat) {
    forall i :: 0 <= i < |commits| && commits[i].Bumped? ==> 1 <= commits[i].generation <= counter
  }

  predicate EntryOk(commits: seq<Commit>, counter: nat, phase: Phase, e: Entry<Envelope>) {
    && e.value.Json?
    && e.value.payload.generation <= counter
    && Sound(commits, e.value.payload.generation, phase, e.value.payload.payload)
  }

  ghost predicate CacheOk(s: Sys) {
    && CommitsOk(s.commits, Counter(s))
    && (forall p :: Public(p) in s.store.values ==> EntryOk(s.commits, Counter(s), p, s.store.values[Public(p)]))
    && (forall r :: r in s.requests ==> RequestOk(s.commits, Counter(s), s.requests[r]))
  }

  /** Neither a new commit nor a later increment can make a past board unsound. */
  predicate Extends(commits: seq<Commit>, later: seq<Commit>, counter: nat) {
    && |commits| <= |later|
    && (forall i :: 0 <= i < |commits| ==>
          later[i] == commits[i] || (later[i].Bumped? ==> later[i].generation > counter && !commits[i].Bumped?))
    && (forall i :: 0 <= i < |commits| && commits[i].Bumped? ==> later[i] == commits[i])
    && (forall i :: |commits| <= i < |later| ==> later[i].Pending?)
  }

  lemma SoundStays(commits: seq<Commit>, later: seq<Commit>, counter: nat, g: nat)
    requires Extends(commits, later, counter) && g <= counter
    ensures DoneBy(later, g) == DoneBy(commits, g)
    ensures forall n :: Covers(commits, g, n) ==> Covers(later, g, n)
  {
  }

  lemma HistoryGrows(s: Sys, t: Sys)
    requires CacheOk(s) && Extends(s.commits, t.commits, Counter(s)) && Counter(s) <= Counter(t)
    requires CommitsOk(t.commits, Counter(t))
    requires t.store.values == s.store.values && t.requests == s.requests
    ensures CacheOk(t)
  {
    forall p | Public(p) in t.store.values ensures EntryOk(t.commits, Counter(t), p, t.store.values[Public(p)]) {
      SoundStays(s.commits, t.commits, Counter(s), s.store.values[Public(p)].value.payload.generation);
    }
    forall r | r in t.requests ensures RequestOk(t.commits, Counter(t), t.requests[r]) {
      SoundStays(s.commits, t.commits, Counter(s), s.requests[r].generation);
    }
  }

  lemma ProgressOk(s: Sys, q: Request)
    requires CacheOk(s) && RequestOk(s.commits, Counter(s), q)
    ensures var (store, q') := Progress(s, q);
            && store.counters == s.store.counters
            && RequestOk(s.commits, Counter(s), q')
            && forall p :: Public(p) in store.values ==> EntryOk(s.commits, Counter(s), p, store.values[Public(p)])
  {
    hide CachePhase, CommitsOk;
  }

  lemma ProceedKeepsCache(s: Sys, r: nat)
    requires CacheOk(s)
    ensures CacheOk(Apply(s, Proceed(r)))
  {
    hide EntryOk, RequestOk, CommitsOk, Progress;
    if r in s.requests { ProgressOk(s, s.requests[r]); }
  }

  lemma StepKeepsCache(s: Sys, step: Step)
    requires CacheOk(s)
    ensures CacheOk(Apply(s, step))
  {
    var t := Apply(s, step);
    match step
    case Proceed(r) =>
      hide CacheOk, Apply;
      ProceedKeepsCache(s, r);
    case CommitRows(_) => HistoryGrows(s, t);
    case Bump(i) => HistoryGrows(s, t);
    case Lose(i) => HistoryGrows(s, t);
    case Arrive(_) =>
      assert DoneBy(s.commits, 0) == {};
    case _ =>
  }

  lemma {:induction false} RunKeepsCache(s: Sys, steps: seq<Step>)
    requires CacheOk(s)
    ensures CacheOk(Run(s, steps))
  {
    if steps != [] {
      RunKeepsCache(s, steps[..|steps| - 1]);
      StepKeepsCache(Run(s, steps[..|steps| - 1]), steps[|steps| - 1]);
    }
  }

  // ---------- coherence ----------

  predicate Answered(q: Request, b: Board) {
    q.pc == Finished(Served(b)) || q.pc == Release(Served(b))
  }

  /** Whatever happens in whatever order, a board handed to a reader, cached or fresh, was aggregated
      by two statements that both saw every commit whose increment had completed when that reader last
      read the counter, and it was built for the phase whose key the reader asked for. */
  lemma ServedBoardIsCoherent(event: Event, now: Time, ttl: real, steps: seq<Step>, r: nat, b: Board)
    requires var s := Run(Start(event, now, ttl), steps); r in s.requests && Answered(s.requests[r], b)
    ensures var s := Run(Start(event, now, ttl), steps); var q := s.requests[r];
            && (forall i :: i in q.completed ==> i < b.total && i < b.rows)
            && b.total <= |s.commits| && b.rows <= |s.commits|
            && b.origin.Phase() == q.Phase()
  {
    RunKeepsCache(Start(event, now, ttl), steps);
  }

  /** With every increment through and none since the reader last looked, the board is the aggregate
      of the rows as they are now. */
  lemma QuietBoardIsCurrent(event: Event, now: Time, ttl: real, steps: seq<Step>, r: nat, b: Board)
    requires var s := Run(Start(event, now, ttl), steps);
             && r in s.requests && Answered(s.requests[r], b)
             && Counter(s) == s.requests[r].generation
             && forall i :: 0 <= i < |s.commits| ==> s.commits[i].Bumped?
    ensures var s := Run(Start(event, now, ttl), steps); b.total == |s.commits| && b.rows == |s.commits|
  {
    RunKeepsCache(Start(event, now, ttl), steps);
    var s := Run(Start(event, now, ttl), steps);
    if |s.commits| > 0 {
      assert s.commits[|s.commits| - 1].generation <= Counter(s);
    }
  }

  // ---------- the lease ----------

  predicate Holds(s: Sys, q: Request) {
    Build(q.Phase()) in s.store.leases && s.store.leases[Build(q.Phase())] == Lease(q.leaseUntil, q.token)
  }

  ghost predicate LeasesOk(s: Sys) {
    && (forall k :: k in s.store.leases ==> s.store.leases[k].token < s.nextToken)
    && (forall r :: r in s.requests && s.requests[r].Building() ==> s.requests[r].token < s.nextToken)
    && (forall r, q ::
          r in s.requests && q in s.requests && r != q && s.requests[r].Building() && s.requests[q].Building()
          ==> s.requests[r].token != s.requests[q].token)
    && (forall r :: r in s.requests && s.requests[r].Building() && s.now < s.requests[r].leaseUntil ==>
          Holds(s, s.requests[r]))
  }

  /** What a step of q does to the leases: nothing, or take a free one, or return its own. */
  lemma ProgressTokens(s: Sys, q: Request)
    ensures var (store, q') := Progress(s, q); var key := Build(q.Phase());
            && q'.Phase() == q.Phase()
            && (q.Building() && q'.Building() ==> q'.token == q.token && q'.leaseUntil == q.leaseUntil)
            && (|| (store.leases == s.store.leases && (q'.Building() ==> q.Building()))
                || (q'.Building() && !q.Building() && q'.token == s.nextToken && q'.leaseUntil > s.now
                    && !LeaseHeld(s.store, key, s.now)
                       && store.leases == s.store.leases[key := Lease(q'.leaseUntil, q'.token)])
                || (q.Building() && !q'.Building() && key in s.store.leases && s.store.leases[key].token == q.token
                    && store.leases == s.store.leases - {key}))
  {
  }

  lemma ProgressLeases(s: Sys, r: nat)
    requires LeasesOk(s) && r in s.requests
    ensures LeasesOk(Apply(s, Proceed(r)))
  {
    var q := s.requests[r];
    ProgressTokens(s, q);
    var (store, q') := Progress(s, q);
    var t := s.(store := store, requests := s.requests[r := q'], nextToken := s.nextToken + 1);
    assert t == Apply(s, Proceed(r));
    forall o | o in t.requests && t.requests[o].Building() && t.now < t.requests[o].leaseUntil
      ensures Holds(t, t.requests[o])
    {
      if o != r { assert Holds(s, s.requests[o]); } else if q.Building() { assert Holds(s, q); }
    }
  }

  lemma RaisedLeases(s: Sys, r: nat)
    requires LeasesOk(s) && r in s.requests
    ensures LeasesOk(Apply(s, Fail(r)))
  {
    var q, q' := s.requests[r], Raised(s.requests[r]);
    var t := s.(requests := s.requests[r := q']);
    assert t == Apply(s, Fail(r));
    assert q'.Building() ==>
             q.Building() && q'.token == q.token && q'.leaseUntil == q.leaseUntil && q'.Phase() == q.Phase();
    forall o | o in t.requests && t.requests[o].Building() && t.now < t.requests[o].leaseUntil
      ensures Holds(t, t.requests[o])
    {
      assert Holds(s, s.requests[o]);
    }
  }

  lemma LeasesFrame(s: Sys, t: Sys)
    requires LeasesOk(s) && t.store.leases == s.store.leases && t.nextToken == s.nextToken && t.now >= s.now
    requires forall r :: r in t.requests && t.requests[r].Building() ==>
               r in s.requests && t.requests[r] == s.requests[r]
    ensures LeasesOk(t)
  {
    forall r | r in t.requests && t.requests[r].Building() && t.now < t.requests[r].leaseUntil
      ensures Holds(t, t.requests[r])
    {
      assert Holds(s, s.requests[r]);
    }
  }

  lemma StepKeepsLeases(s: Sys, step: Step)
    requires LeasesOk(s)
    ensures LeasesOk(Apply(s, step))
  {
    match step
    case Proceed(r) => if r in s.requests { ProgressLeases(s, r); }
    case Fail(r) => if r in s.requests { RaisedLeases(s, r); }
    case _ =>
      LeasesFrame(s, Apply(s, step));
  }

  lemma {:induction false} RunKeepsLeases(s: Sys, steps: seq<Step>)
    requires LeasesOk(s)
    ensures LeasesOk(Run(s, steps))
  {
    if steps != [] {
      RunKeepsLeases(s, steps[..|steps| - 1]);
      StepKeepsLeases(Run(s, steps[..|steps| - 1]), steps[|steps| - 1]);
    }
  }

  /** Single flight: of two builders of one phase, at least one has outlived its lease. */
  lemma OneBuilderPerLease(event: Event, now: Time, ttl: real, steps: seq<Step>, r: nat, q: nat)
    requires var s := Run(Start(event, now, ttl), steps);
             && r in s.requests && q in s.requests && r != q
             && s.requests[r].Building() && s.requests[q].Building()
             && s.requests[r].Phase() == s.requests[q].Phase()
    ensures var s := Run(Start(event, now, ttl), steps);
            s.requests[r].leaseUntil <= s.now || s.requests[q].leaseUntil <= s.now
  {
    RunKeepsLeases(Start(event, now, ttl), steps);
    var s := Run(Start(event, now, ttl), steps);
  }

  // ---------- the writer's side ----------

  const PHASES := [LivePhase, FrozenPhase, FinalPhase]

  /** The deletes for these phases, without those that raise. */
  function Deletions(phases: seq<Phase>, failing: set<Phase>): seq<Step> {
    if phases == [] then []
    else
      var n := |phases| - 1;
      Deletions(phases[..n], failing) + (if phases[n] in failing then [] else [Invalidate(phases[n])])
  }

  /** The steps of _invalidate_scoreboard after commit i; `lost` says that the increment raises. */
  function Invalidation(i: nat, lost: bool, failing: set<Phase>): seq<Step> {
    [if lost then Lose(i) else Bump(i)] + Deletions(PHASES, failing)
  }

  lemma NoDeletion(s: Sys, first: Step, failing: set<Phase>)
    ensures Run(s, [first] + Deletions([], failing)) == Apply(s, first)
  {
    RunMore(s, [], first);
    assert [] + [first] == [first] + Deletions([], failing);
    hide Apply;
  }

  lemma OneMoreDeletion(s: Sys, first: Step, phases: seq<Phase>, failing: set<Phase>)
    requires phases != []
    ensures var n := |phases| - 1; var t := Run(s, [first] + Deletions(phases[..n], failing));
            Run(s, [first] + Deletions(phases, failing))
            == if phases[n] in failing then t else Apply(t, Invalidate(phases[n]))
  {
    hide Apply;
    var n := |phases| - 1;
    var done := [first] + Deletions(phases[..n], failing);
    if phases[n] in failing {
      assert [first] + Deletions(phases, failing) == done;
    } else {
      RunMore(s, done, Invalidate(phases[n]));
      assert [first] + Deletions(phases, failing) == done + [Invalidate(phases[n])];
    }
  }

  /** _invalidate_scoreboard on the store itself. Every call stands for one step, so those of other requests may
      come in between; here nothing does. */
  method InvalidateScoreboard(store: MemoryStore<Key, Envelope>, s: Sys, i: nat, lost: bool, failing: set<Phase>)
    returns (commits: seq<Commit>)
    requires store.State() == s.store && i < |s.commits| && s.commits[i].Pending?
    modifies store
    ensures var t := Run(s, Invalidation(i, lost, failing)); store.State() == t.store && commits == t.commits
  {
    hide Progress, Raised, Beginning, Run, Deletions;
    ghost var first := if lost then Lose(i) else Bump(i);
    NoDeletion(s, first, failing);
    if lost {
      commits := s.commits[i := Lost];
    } else {
      var value := store.Increment(Generation);
      commits := s.commits[i := Bumped(value)];
    }
    assert PHASES[..0] == [];
    for n := 0 to |PHASES|
      invariant store.State() == Run(s, [first] + Deletions(PHASES[..n], failing)).store
      invariant commits == Run(s, [first] + Deletions(PHASES[..n], failing)).commits
    {
      assert PHASES[..n + 1][..n] == PHASES[..n];
      OneMoreDeletion(s, first, PHASES[..n + 1], failing);
      if PHASES[n] !in failing {
        store.Delete(Public(PHASES[n]));
      }
    }
    assert PHASES[..|PHASES|] == PHASES;
  }

  lemma {:induction false} DeletionsClear(s: Sys, first: Step, phases: seq<Phase>, failing: set<Phase>)
    ensures var t := Run(s, [first] + Deletions(phases, failing)); var u := Apply(s, first);
            && t.store.counters == u.store.counters && t.commits == u.commits
            && (forall p :: p in phases && p !in failing ==> Public(p) !in t.store.values)
            && (forall k :: k in t.store.values ==> k in u.store.values && t.store.values[k] == u.store.values[k])
  {
    hide Progress, Raised, Beginning, Run, Deletions;
    if phases == [] {
      NoDeletion(s, first, failing);
    } else {
      DeletionsClear(s, first, phases[..|phases| - 1], failing);
      OneMoreDeletion(s, first, phases, failing);
    }
  }

  lemma PhaseIsListed(p: Phase)
    ensures p in PHASES
  {
    match p
    case LivePhase => assert PHASES[0] == p;
    case FrozenPhase => assert PHASES[1] == p;
    case FinalPhase => assert PHASES[2] == p;
  }

  /** Unless its increment is lost, the commit is counted from here on: every request that reads the counter later has
      it among the completed ones, whichever deletes have failed; and the deletes that have not leave no board. */
  lemma InvalidationCompletes(s: Sys, i: nat, lost: bool, failing: set<Phase>)
    requires CacheOk(s) && i < |s.commits| && s.commits[i].Pending?
    ensures var t := Run(s, Invalidation(i, lost, failing));
            && CacheOk(t)
            && (!lost ==> t.commits == s.commits[i := Bumped(Counter(s) + 1)] && Counter(t) == Counter(s) + 1
                          && i in DoneBy(t.commits, Counter(t)))
            && (lost ==> t.commits == s.commits[i := Lost] && Counter(t) == Counter(s))
            && (forall p :: Public(p) in t.store.values ==> p in failing)
  {
    hide CacheOk, Run, Deletions;
    RunKeepsCache(s, Invalidation(i, lost, failing));
    forall p: Phase ensures p in PHASES { PhaseIsListed(p); }
    DeletionsClear(s, if lost then Lose(i) else Bump(i), PHASES, failing);
  }

  // ---------- what the protocol does not promise ----------

  function Repeat(step: Step, n: nat): (r: seq<Step>)
    ensures |r| == n && forall i :: 0 <= i < n ==> r[i] == step
  {
    if n == 0 then [] else Repeat(step, n - 1) + [step]
  }

  lemma RunMore(s: Sys, steps: seq<Step>, step: Step)
    ensures Run(s, steps + [step]) == Apply(Run(s, steps), step)
  {
    assert (steps + [step])[..|steps|] == steps;
  }

  /** n consecutive steps of one request. */
  function Advance(s: Sys, r: nat, n: nat): Sys
    decreases n
  {
    if n == 0 then s else Advance(Apply(s, Proceed(r)), r, n - 1)
  }

  lemma {:induction false} AdvanceIsRun(s: Sys, steps: seq<Step>, r: nat, n: nat)
    ensures Run(s, steps + Repeat(Proceed(r), n)) == Advance(Run(s, steps), r, n)
    decreases n
  {
    var more := steps + Repeat(Proceed(r), n);
    if n == 0 {
      assert more == steps;
    } else {
      AdvanceIsRun(s, steps + [Proceed(r)], r, n - 1);
      RunMore(s, steps, Proceed(r));
      assert more == steps + [Proceed(r)] + Repeat(Proceed(r), n - 1);
    }
  }

  predicate OnlyMoved(s: Sys, t: Sys, r: nat) {
    && r in s.requests && r in t.requests
    && t.requests[r].origin == s.requests[r].origin && t.requests.Keys == s.requests.Keys
    && t.commits == s.commits && t.event == s.event && t.now == s.now && t.ttl == s.ttl
    && t.store.counters == s.store.counters
  }

  /** With no cached board, the first three steps of a request take a free lease. */
  lemma ColdLease(s: Sys, r: nat)
    requires r in s.requests && s.requests[r].pc == ReadGeneration
    requires s.store.values == map[] && s.store.leases == map[]
    ensures var t := Advance(s, r, 3);
            OnlyMoved(s, t, r) && t.requests[r].pc == BuilderGeneration && t.store.values == map[]
  {
    var p := Proceed(r);
    var t1 := Apply(s, p);
    assert t1.requests[r].pc == ReadCache && t1.store == s.store;
    var t2 := Apply(t1, p);
    assert t2.requests[r].pc == TakeLease && t2.store == s.store;
    var t3 := Apply(t2, p);
    assert t3.requests[r].pc == BuilderGeneration && t3.store.values == map[];
    assert Advance(s, r, 3) == Advance(t1, r, 2) == Advance(t2, r, 1) == Advance(t3, r, 0);
  }

  /** The next three find no board after all and run the first query. */
  lemma ColdQuery(s: Sys, r: nat)
    requires r in s.requests && s.requests[r].pc == BuilderGeneration && s.store.values == map[]
    ensures var t := Advance(s, r, 3);
            && OnlyMoved(s, t, r) && t.requests[r].pc == QueryRows(|s.commits|)
            && t.requests[r].generation == Counter(s) && t.store.values == map[]
  {
    var p := Proceed(r);
    var t1 := Apply(s, p);
    assert t1.requests[r] == ReadingCounter(s, s.requests[r], BuilderCache) && t1.store == s.store;
    var t2 := Apply(t1, p);
    assert t2.requests[r].pc == QueryTotal && t2.store == s.store && t2.commits == s.commits;
    var t3 := Apply(t2, p);
    assert t3.requests[r].pc == QueryRows(|s.commits|) && t3.store == s.store;
    assert Advance(s, r, 3) == Advance(t1, r, 2) == Advance(t2, r, 1) == Advance(t3, r, 0);
  }

  /** The next two run the second query and find the counter unchanged. */
  lemma ColdRows(s: Sys, r: nat, total: nat)
    requires r in s.requests && s.requests[r].pc == QueryRows(total) && s.requests[r].generation == Counter(s)
    ensures var t := Advance(s, r, 2); var q := s.requests[r];
            && OnlyMoved(s, t, r) && t.store == s.store
            && t.requests[r].pc == Publish(Board(q.origin, total, |s.commits|))
            && t.requests[r].generation == Counter(s) && t.requests[r].completed == DoneBy(s.commits, Counter(s))
  {
    hide DoneBy, CachePhase;
    var p := Proceed(r);
    var b := Board(s.requests[r].origin, total, |s.commits|);
    var t1 := Apply(s, p);
    assert t1.requests[r] == s.requests[r].(pc := CheckGeneration(b)) && t1.store == s.store;
    var t2 := Apply(t1, p);
    assert t2.requests[r] == ReadingCounter(s, s.requests[r], Publish(b)) && t2.store == s.store;
    assert Advance(s, r, 2) == Advance(t1, r, 1) == Advance(t2, r, 0);
  }

  /** The only change of `values` is the board b, stored under its phase and generation until `expires`. */
  predicate Stores(values: map<Key, Entry<Envelope>>, later: map<Key, Entry<Envelope>>, expires: Time, g: nat, b: Board)
  {
    later == values[Public(b.origin.Phase()) := Entry(expires, Json(Envelope(g, b)))]
  }

  /** The last one publishes. */
  lemma ColdWrite(s: Sys, r: nat, b: Board)
    requires r in s.requests && s.requests[r].pc == Publish(b) && b.origin == s.requests[r].origin && s.ttl > 0.0
    ensures var t := Advance(s, r, 1); var q := s.requests[r];
            && OnlyMoved(s, t, r) && t.requests[r].pc == Release(Served(b)) && t.requests[r].completed == q.completed
            && Stores(s.store.values, t.store.values, s.now + s.ttl, q.generation, b)
  {
    hide DoneBy, CachePhase, Lookup, ReadingCounter, Counter, LeaseTaken, LeaseReturned, JsonAt;
    var t := Apply(s, Proceed(r));
    assert t.requests[r] == s.requests[r].(pc := Release(Served(b)));
    assert Advance(s, r, 1) == Advance(t, r, 0);
  }

  lemma ColdPublish(s: Sys, r: nat, total: nat)
    requires r in s.requests && s.requests[r].pc == QueryRows(total) && s.requests[r].generation == Counter(s)
    requires s.ttl > 0.0
    ensures var t := Advance(s, r, 3); var q := s.requests[r]; var b := Board(q.origin, total, |s.commits|);
            && OnlyMoved(s, t, r) && t.requests[r].pc == Release(Served(b))
            && t.requests[r].completed == DoneBy(s.commits, Counter(s))
            && Stores(s.store.values, t.store.values, s.now + s.ttl, Counter(s), b)
  {
    hide Advance, Apply, Progress, DoneBy, CachePhase, Counter, CounterAt, Stores, OnlyMoved;
    var b := Board(s.requests[r].origin, total, |s.commits|);
    var t := Advance(s, r, 2);
    ColdRows(s, r, total);
    MovedOn(s, s, t, r);
    ColdWrite(t, r, b);
    AdvanceSplit(s, r, 2, 1);
    MovedOn(s, t, Advance(s, r, 3), r);
  }

  lemma MovedOn(s: Sys, t: Sys, u: Sys, r: nat)
    requires r in s.requests && (s == t || OnlyMoved(s, t, r)) && OnlyMoved(t, u, r)
    ensures OnlyMoved(s, u, r) && r in u.requests && u.requests[r].origin == s.requests[r].origin
    ensures u.now == s.now && u.ttl == s.ttl
  {
  }

  lemma {:induction false} AdvanceSplit(s: Sys, r: nat, m: nat, n: nat)
    ensures Advance(s, r, m + n) == Advance(Advance(s, r, m), r, n)
    decreases m
  {
    if m > 0 { AdvanceSplit(Apply(s, Proceed(r)), r, m - 1, n); }
  }

  /** Request 7 arrives, the event row is replaced and the commit's increment completes. */
  lemma ReplacedEvent(before: Event, after: Event, ttl: real)
    ensures var s := Run(Start(before, 0.0, ttl), [Arrive(7), CommitRows(after), Bump(0)]);
            && s.requests == map[7 := Request(Origin(7, before, 0.0, 0, 0), ReadGeneration, 0, {}, 0, 0.0)]
            && s.commits == [Bumped(1)] && Counter(s) == 1 && s.event == after && s.now == 0.0 && s.ttl == ttl
            && s.store.values == map[] && s.store.leases == map[]
  {
    var s0 := Start(before, 0.0, ttl);
    var s1 := Apply(s0, Arrive(7));
    RunMore(s0, [], Arrive(7));
    var s2 := Apply(s1, CommitRows(after));
    RunMore(s0, [Arrive(7)], CommitRows(after));
    assert s2.commits == [Pending];
    var s3 := Apply(s2, Bump(0));
    RunMore(s0, [Arrive(7), CommitRows(after)], Bump(0));
    assert [] + [Arrive(7)] == [Arrive(7)];
    assert [Arrive(7)] + [CommitRows(after)] == [Arrive(7), CommitRows(after)];
    assert [Arrive(7), CommitRows(after)] + [Bump(0)] == [Arrive(7), CommitRows(after), Bump(0)];
  }

  /** Request r began with the `after` row, when the commit that brought it and its increment were long through,
      and was handed, from the cache, a board for the row before it. */
  predicate ServedSuperseded(s: Sys, r: nat, before: Event, after: Event) {
    && r in s.requests && s.requests[r].pc.Finished? && s.requests[r].pc.outcome.Served?
    && s.requests[r].origin.event == after && s.requests[r].pc.outcome.board.origin.event == before
    && s.event == after && s.commits == [Bumped(1)] && s.requests[r].completed == {0}
  }

  /** The event row is read before the generation, so the guard does not reach it: for any two rows of one phase
      there is a run in which a request that comes after the edit and its increment is answered from the cache
      with a board of the row that was replaced. */
  lemma StaleEventRow(before: Event, after: Event, ttl: real)
    requires CachePhase(before, 0.0) == CachePhase(after, 0.0) && ttl > 0.0
    ensures exists steps: seq<Step> :: ServedSuperseded(Run(Start(before, 0.0, ttl), steps), 8, before, after)
  {
    hide Run, Apply, Advance, Start, Published, ServedSuperseded, CachePhase;
    var s0 := Start(before, 0.0, ttl);
    var opening := [Arrive(7), CommitRows(after), Bump(0)];
    ReplacedEvent(before, after, ttl);
    AdvanceIsRun(s0, opening, 7, 9);
    var built := opening + Repeat(Proceed(7), 9);
    StaleBuild(Run(s0, opening), before, after);
    RunMore(s0, built, Arrive(8));
    AdvanceIsRun(s0, built + [Arrive(8)], 8, 2);
    LaterReader(Run(s0, built), before, after);
    assert ServedSuperseded(Run(s0, built + [Arrive(8)] + Repeat(Proceed(8), 2)), 8, before, after);
  }

  /** The builder that arrived before the edit publishes under the generation it read after it. */
  predicate Published(s: Sys, before: Event, after: Event) {
    && s.requests.Keys == {7} && s.commits == [Bumped(1)] && Counter(s) == 1 && s.event == after && s.now == 0.0
    && s.store.values == map[Public(CachePhase(before, 0.0)) :=
                               Entry(s.ttl, Json(Envelope(1, Board(Origin(7, before, 0.0, 0, 0), 1, 1))))]
  }

  lemma StaleBuild(s: Sys, before: Event, after: Event)
    requires s.requests == map[7 := Request(Origin(7, before, 0.0, 0, 0), ReadGeneration, 0, {}, 0, 0.0)]
    requires s.commits == [Bumped(1)] && Counter(s) == 1 && s.event == after && s.now == 0.0 && s.ttl > 0.0
    requires s.store.values == map[] && s.store.leases == map[]
    ensures Published(Advance(s, 7, 9), before, after) && Advance(s, 7, 9).ttl == s.ttl
  {
    hide CachePhase, Advance, Apply, DoneBy;
    ColdLease(s, 7);
    var s2 := Advance(s, 7, 3);
    ColdQuery(s2, 7);
    var s3 := Advance(s2, 7, 3);
    ColdPublish(s3, 7, 1);
    AdvanceSplit(s, 7, 3, 3);
    AdvanceSplit(s, 7, 6, 3);
  }

  lemma LaterReader(s: Sys, before: Event, after: Event)
    requires Published(s, before, after) && s.ttl > 0.0 && CachePhase(before, 0.0) == CachePhase(after, 0.0)
    ensures ServedSuperseded(Advance(Apply(s, Arrive(8)), 8, 2), 8, before, after)
  {
    hide CachePhase;
    var t0 := Apply(s, Arrive(8));
    var t1 := Apply(t0, Proceed(8));
    var t2 := Apply(t1, Proceed(8));
    assert t1.requests[8].pc == ReadCache && t1.requests[8].generation == 1 && t1.store == s.store;
    assert DoneBy([Bumped(1)], 1) == {0};
    assert Advance(t0, 8, 2) == Advance(t1, 8, 1) == Advance(t2, 8, 0);
  }
}
