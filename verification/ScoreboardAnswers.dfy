/** How a scoreboard request is answered, over every interleaving: exactly when it gets a board and which one, exactly
    when it is refused as busy, changed or unavailable, and that it is answered by its own tenth step. */
module ScoreboardAnswers {
  import opened Basics
  import opened Schema
  import opened Services
  import E = EphemeralStore
  import opened ScoreboardCache

  // ---------- what can happen to a request ----------

  /** The store holds, unexpired, a board of the generation that this request last read, for the phase it asks for. */
  predicate Finds(s: Sys, q: Request, b: Board) {
    var key := Public(q.Phase());
    && key in s.store.values && s.store.values[key].expires > s.now
    && s.store.values[key].value == E.Json(Envelope(q.generation, b))
  }

  predicate LeaseRuns(s: Sys, phase: Phase) {
    Build(phase) in s.store.leases && s.store.leases[Build(phase)].expires > s.now
  }

  /** The two looks of a request without the lease, the lease it was refused, the counter as the builder read and
      checked it, the boards it found or published, and an exception before it had its answer. */
  datatype Happening =
    | Found(board: Board)
    | FirstLookFailed
    | LeaseRefused
    | SecondLookFailed
    | BuilderRead(counter: nat)
    | BuilderChecked(counter: nat)
    | Published(board: Board)
    | Threw

  function AnswerOf(pc: Pc): Option<Outcome> {
    match pc
    case Release(o) => Some(o)
    case Finished(o) => Some(o)
    case _ => None
  }

  ghost predicate Happens(e: Happening, s: Sys, step: Step, r: nat) {
    && r in s.requests
    && var q := s.requests[r];
    && (if e.Threw? then step == Fail(r) && AnswerOf(q.pc).None? else step == Proceed(r))
    && match e
       case Found(b) => (q.pc.ReadCache? || q.pc.LoserCache? || q.pc.BuilderCache?) && Finds(s, q, b)
       case FirstLookFailed => q.pc.ReadCache? && forall b :: !Finds(s, q, b)
       case LeaseRefused => q.pc.TakeLease? && LeaseRuns(s, q.Phase())
       case SecondLookFailed => q.pc.LoserCache? && forall b :: !Finds(s, q, b)
       case BuilderRead(c) => q.pc.BuilderGeneration? && Counter(s) == c
       case BuilderChecked(c) => q.pc.CheckGeneration? && Counter(s) == c
       case Published(b) => q.pc == Publish(b)
       case Threw => true
  }

  ghost predicate Happened(start: Sys, steps: seq<Step>, r: nat, e: Happening) {
    exists k :: 0 <= k < |steps| && Happens(e, Run(start, steps[..k]), steps[k], r)
  }

  lemma HappenedSplits(start: Sys, steps: seq<Step>, r: nat, e: Happening)
    requires steps != []
    ensures var n := |steps| - 1;
            Happened(start, steps, r, e)
            <==> Happened(start, steps[..n], r, e) || Happens(e, Run(start, steps[..n]), steps[n], r)
  {
    hide Happens, Run;
    var n := |steps| - 1;
    if k :| 0 <= k < |steps| && Happens(e, Run(start, steps[..k]), steps[k], r) {
      if k < n { assert steps[..n][..k] == steps[..k] && steps[..n][k] == steps[k]; }
    }
    if k :| 0 <= k < n && Happens(e, Run(start, steps[..n][..k]), steps[..n][k], r) {
      assert steps[..n][..k] == steps[..k] && steps[..n][k] == steps[k];
    }
  }

  // ---------- what a request's place in the handler says about its past ----------

  predicate Building(pc: Pc) {
    pc.BuilderCache? || pc.QueryTotal? || pc.QueryRows? || pc.CheckGeneration?
  }

  ghost predicate Trail(past: iset<Happening>, q: Request) {
    && (FirstLookFailed in past ==> !q.pc.ReadGeneration? && !q.pc.ReadCache?)
    && (!q.pc.ReadGeneration? && !q.pc.ReadCache? && AnswerOf(q.pc).None? ==> FirstLookFailed in past)
    && (q.pc.LoserGeneration? || q.pc.LoserCache? ==> LeaseRefused in past)
    && (SecondLookFailed in past <==> AnswerOf(q.pc) == Some(Busy))
    && (SecondLookFailed in past ==> FirstLookFailed in past && LeaseRefused in past)
    && (forall c :: BuilderRead(c) in past ==> Building(q.pc) || q.pc.Publish? || AnswerOf(q.pc).Some?)
    && (Building(q.pc) ==> BuilderRead(q.generation) in past)
    && (forall c :: BuilderRead(c) in past && Building(q.pc) ==> c == q.generation)
    && (forall c :: BuilderChecked(c) in past ==> q.pc.Publish? || AnswerOf(q.pc).Some?)
    && (forall c, d :: BuilderRead(c) in past && BuilderChecked(d) in past ==>
          (c != d <==> AnswerOf(q.pc) == Some(Changed)))
    && (AnswerOf(q.pc) == Some(Changed) ==> exists c, d :: BuilderRead(c) in past && BuilderChecked(d) in past)
    && (Threw in past <==> AnswerOf(q.pc) == Some(Unavailable))
    && (forall b :: AnswerOf(q.pc) == Some(Served(b)) <==> Found(b) in past || Published(b) in past)
  }

  /** Only its own steps, and an exception, move a request. */
  lemma OthersDoNotMove(s: Sys, step: Step, r: nat)
    requires r in s.requests && step != Proceed(r) && step != Fail(r)
    ensures r in Apply(s, step).requests && Apply(s, step).requests[r] == s.requests[r]
    ensures forall e :: !Happens(e, s, step, r)
  {
    hide Progress, Raised, Beginning;
  }

  lemma NothingFound(s: Sys, q: Request)
    ensures Lookup(s, q).1 == None <==> forall b :: !Finds(s, q, b)
    ensures forall b :: Lookup(s, q).1 == Some(b) <==> Finds(s, q, b)
  {
    hide CachePhase;
    if Lookup(s, q).1.Some? { assert Finds(s, q, Lookup(s, q).1.value); }
  }

  predicate Looks(pc: Pc) {
    pc.ReadCache? || pc.LoserCache? || pc.BuilderCache?
  }

  predicate Counts(pc: Pc) {
    pc.BuilderGeneration? || pc.CheckGeneration? || pc.Publish?
  }

  /** What a look adds to the past. */
  predicate LookAdds(pc: Pc, hit: Option<Board>, e: Happening) {
    if hit.Some? then e == Found(hit.value)
    else (pc.ReadCache? && e == FirstLookFailed) || (pc.LoserCache? && e == SecondLookFailed)
  }

  lemma LookHappens(s: Sys, r: nat)
    requires r in s.requests && Looks(s.requests[r].pc)
    ensures var q := s.requests[r]; var hit := Lookup(s, q).1;
            forall e :: Happens(e, s, Proceed(r), r) <==> LookAdds(q.pc, hit, e)
  {
    NothingFound(s, s.requests[r]);
    hide Lookup, Counter, Finds;
  }

  /** Where a look leads. */
  function AfterLook(pc: Pc, hit: Option<Board>): Pc {
    match pc
    case ReadCache => if hit.Some? then Finished(Served(hit.value)) else TakeLease
    case LoserCache => if hit.Some? then Finished(Served(hit.value)) else Finished(Busy)
    case _ => if hit.Some? then Release(Served(hit.value)) else QueryTotal
  }

  lemma LookSettles(q: Request, hit: Option<Board>, past: iset<Happening>, later: iset<Happening>)
    requires Looks(q.pc) && Trail(past, q)
    requires forall e :: e in later <==> e in past || LookAdds(q.pc, hit, e)
    ensures Trail(later, q.(pc := AfterLook(q.pc, hit)))
  {
  }

  lemma LookTrails(s: Sys, r: nat, past: iset<Happening>, later: iset<Happening>)
    requires r in s.requests && Trail(past, s.requests[r]) && Looks(s.requests[r].pc)
    requires forall e :: e in later <==> e in past || Happens(e, s, Proceed(r), r)
    ensures Trail(later, Progress(s, s.requests[r]).1)
  {
    var q := s.requests[r];
    LookHappens(s, r);
    hide Happens, Trail, Lookup;
    LookSettles(q, Lookup(s, q).1, past, later);
    assert Progress(s, q).1 == q.(pc := AfterLook(q.pc, Lookup(s, q).1));
  }

  lemma LeaseTrails(s: Sys, r: nat, past: iset<Happening>, later: iset<Happening>)
    requires r in s.requests && Trail(past, s.requests[r]) && s.requests[r].pc.TakeLease?
    requires forall e :: e in later <==> e in past || Happens(e, s, Proceed(r), r)
    ensures Trail(later, Progress(s, s.requests[r]).1)
  {
    hide Lookup, DoneBy, Counter, Finds, E.WithJson, E.LeaseReturned;
    assert forall e :: Happens(e, s, Proceed(r), r) <==> e == LeaseRefused && LeaseRuns(s, s.requests[r].Phase());
    hide Happens;
  }

  lemma CountTrails(s: Sys, r: nat, past: iset<Happening>, later: iset<Happening>)
    requires r in s.requests && Trail(past, s.requests[r]) && Counts(s.requests[r].pc)
    requires forall e :: e in later <==> e in past || Happens(e, s, Proceed(r), r)
    ensures Trail(later, Progress(s, s.requests[r]).1)
  {
    var q := s.requests[r];
    hide Lookup, DoneBy, Counter, Finds, LeaseRuns, E.WithJson, E.LeaseReturned, E.LeaseTaken;
    match q.pc
    case BuilderGeneration => assert BuilderRead(Counter(s)) in later;
    case CheckGeneration(_) => assert BuilderRead(q.generation) in later && BuilderChecked(Counter(s)) in later;
    case Publish(b) => assert Published(b) in later;
  }

  lemma QuietTrails(s: Sys, r: nat, past: iset<Happening>, later: iset<Happening>)
    requires r in s.requests && Trail(past, s.requests[r]) && !Looks(s.requests[r].pc) && !Counts(s.requests[r].pc)
             && !s.requests[r].pc.TakeLease?
    requires forall e :: e in later <==> e in past || Happens(e, s, Proceed(r), r)
    ensures Trail(later, Progress(s, s.requests[r]).1)
  {
    assert forall e :: !Happens(e, s, Proceed(r), r);
    hide Happens, Lookup, DoneBy, Counter, E.WithJson, E.LeaseReturned, E.LeaseTaken;
  }

  lemma FailTrails(s: Sys, r: nat, past: iset<Happening>, later: iset<Happening>)
    requires r in s.requests && Trail(past, s.requests[r])
    requires forall e :: e in later <==> e in past || Happens(e, s, Fail(r), r)
    ensures Trail(later, Raised(s.requests[r]))
  {
    hide Finds;
  }

  lemma StepTrails(s: Sys, step: Step, r: nat, past: iset<Happening>, later: iset<Happening>)
    requires r in s.requests && Trail(past, s.requests[r])
    requires forall e :: e in later <==> e in past || Happens(e, s, step, r)
    ensures r in Apply(s, step).requests && Trail(later, Apply(s, step).requests[r])
  {
    if step == Proceed(r) {
      if Looks(s.requests[r].pc) {
        LookTrails(s, r, past, later);
      } else if Counts(s.requests[r].pc) {
        CountTrails(s, r, past, later);
      } else if s.requests[r].pc.TakeLease? {
        LeaseTrails(s, r, past, later);
      } else {
        QuietTrails(s, r, past, later);
      }
      hide Progress, Trail, Happens;
    } else if step == Fail(r) {
      FailTrails(s, r, past, later);
      hide Trail, Happens;
    } else {
      OthersDoNotMove(s, step, r);
      hide Apply, Happens;
      assert later == past;
    }
  }

  /** What has happened to request r in a run. */
  ghost function Past(start: Sys, steps: seq<Step>, r: nat): iset<Happening> {
    iset e | Happened(start, steps, r, e)
  }

  lemma {:induction false} RunTrails(start: Sys, steps: seq<Step>, r: nat)
    requires start.requests == map[]
    ensures r !in Run(start, steps).requests ==> Past(start, steps, r) == iset{}
    ensures r in Run(start, steps).requests ==> Trail(Past(start, steps, r), Run(start, steps).requests[r])
  {
    hide Happens, Trail, Apply;
    if steps != [] {
      var n := |steps| - 1;
      var s := Run(start, steps[..n]);
      RunTrails(start, steps[..n], r);
      forall e ensures Happened(start, steps, r, e)
                       <==> Happened(start, steps[..n], r, e) || Happens(e, s, steps[n], r)
      {
        HappenedSplits(start, steps, r, e);
      }
      if r in s.requests {
        StepTrails(s, steps[n], r, Past(start, steps[..n], r), Past(start, steps, r));
      } else {
        forall e ensures !Happened(start, steps[..n], r, e) { assert e !in Past(start, steps[..n], r); }
        ArrivalTrails(s, steps[n], r, Past(start, steps, r));
      }
    }
  }

  lemma ArrivalTrails(s: Sys, step: Step, r: nat, past: iset<Happening>)
    requires r !in s.requests && forall e :: e in past <==> Happens(e, s, step, r)
    ensures past == iset{}
    ensures r in Apply(s, step).requests ==> Trail(past, Apply(s, step).requests[r])
  {
    assert forall e :: !Happens(e, s, step, r);
    hide Happens, Progress, Counter;
  }

  // ---------- the answers ----------

  /** In every run: a request is answered with a board if and only if one of its looks found that board or it published
      it; it is told to come back, as busy, if and only if neither of its two looks found one and a lease was running
      when it asked in between; its work is thrown away if and only if the counter it read as a builder had moved when
      it checked; and it is refused as unavailable if and only if a call of its own raised. */
  lemma AnswersExactly(event: Event, now: Time, ttl: real, steps: seq<Step>, r: nat)
    requires r in Run(Start(event, now, ttl), steps).requests
    ensures var s0 := Start(event, now, ttl); var answer := AnswerOf(Run(s0, steps).requests[r].pc);
            && (forall b :: answer == Some(Served(b)) <==>
                  Happened(s0, steps, r, Found(b)) || Happened(s0, steps, r, Published(b)))
            && (answer == Some(Busy) <==>
                  && Happened(s0, steps, r, FirstLookFailed) && Happened(s0, steps, r, LeaseRefused)
                  && Happened(s0, steps, r, SecondLookFailed))
            && (answer == Some(Changed) <==>
                  exists c, d :: c != d && Happened(s0, steps, r, BuilderRead(c))
                                 && Happened(s0, steps, r, BuilderChecked(d)))
            && (answer == Some(Unavailable) <==> Happened(s0, steps, r, Threw))
  {
    hide Run, Happened;
    var s0 := Start(event, now, ttl);
    RunTrails(s0, steps, r);
    var past := Past(s0, steps, r);
    forall e ensures e in past <==> Happened(s0, steps, r, e) { }
    if AnswerOf(Run(s0, steps).requests[r].pc) == Some(Changed) {
      var c, d :| BuilderRead(c) in past && BuilderChecked(d) in past;
      assert c != d;
    }
  }

  // ---------- every request is answered ----------

  /** How many of its steps a request has still to take at most. */
  function Remaining(pc: Pc): nat {
    match pc
    case ReadGeneration => 10
    case ReadCache => 9
    case TakeLease => 8
    case LoserGeneration => 7
    case LoserCache => 6
    case BuilderGeneration => 7
    case BuilderCache => 6
    case QueryTotal => 5
    case QueryRows(_) => 4
    case CheckGeneration(_) => 3
    case Publish(_) => 2
    case Release(_) => 1
    case Finished(_) => 0
  }

  function Taken(steps: seq<Step>, r: nat): nat {
    if steps == [] then 0
    else var n := |steps| - 1; Taken(steps[..n], r) + (if steps[n] == Proceed(r) then 1 else 0)
  }

  lemma StepAdvances(s: Sys, step: Step, r: nat)
    requires r in s.requests
    ensures r in Apply(s, step).requests
    ensures var rest, after := Remaining(s.requests[r].pc), Remaining(Apply(s, step).requests[r].pc);
            after <= rest && (step == Proceed(r) ==> after < rest || rest == 0)
  {
    hide Lookup, DoneBy, Counter, CachePhase, E.WithJson, E.LeaseTaken, E.LeaseReturned;
  }

  /** Whatever others do, a request is answered by its own tenth step. */
  lemma {:induction false} TenStepsAnswer(s: Sys, steps: seq<Step>, r: nat)
    requires r in s.requests
    ensures r in Run(s, steps).requests
    ensures Remaining(Run(s, steps).requests[r].pc) + Taken(steps, r) <= 10
            || Run(s, steps).requests[r].pc.Finished?
    ensures Taken(steps, r) >= 10 ==> Run(s, steps).requests[r].pc.Finished?
  {
    hide Apply;
    if steps != [] {
      var n := |steps| - 1;
      TenStepsAnswer(s, steps[..n], r);
      StepAdvances(Run(s, steps[..n]), steps[n], r);
    }
  }

  // ---------- the lease and the generation ----------

  /** The generation a request goes by is the counter's value at the last of its reads. */
  lemma GenerationIsLastRead(s: Sys, step: Step, r: nat)
    requires r in s.requests
    ensures var q, q' := s.requests[r], Apply(s, step).requests[r];
            q'.generation == if step == Proceed(r)
                                && (q.pc.ReadGeneration? || q.pc.LoserGeneration? || q.pc.BuilderGeneration?)
                             then Counter(s) else q.generation
  {
    hide Lookup, DoneBy, CachePhase, Beginning, E.CounterAt, E.WithJson, E.LeaseTaken, E.LeaseReturned;
  }

  /** A request becomes the builder exactly when no lease is running, and then holds a new one for 45 seconds. */
  lemma LeaseIsTakenExactly(s: Sys, r: nat)
    requires r in s.requests && s.requests[r].pc.TakeLease?
    ensures var s' := Apply(s, Proceed(r)); var q := s.requests[r]; var key := Build(q.Phase());
            && (s'.requests[r].pc.BuilderGeneration? <==> !LeaseRuns(s, q.Phase()))
            && (LeaseRuns(s, q.Phase()) ==> s'.requests[r].pc.LoserGeneration? && s'.store == s.store)
            && (!LeaseRuns(s, q.Phase()) ==>
                  s'.store.leases == s.store.leases[key := E.Lease(s.now + 45.0, s'.requests[r].token)])
  {
    hide CachePhase;
  }

  /** A builder's last step gives its own lease back, and no other. */
  lemma LeaseIsGivenBack(s: Sys, r: nat)
    requires r in s.requests && s.requests[r].pc.Release?
    ensures var s' := Apply(s, Proceed(r)); var q := s.requests[r]; var key := Build(q.Phase());
            && !(key in s'.store.leases && s'.store.leases[key].token == q.token)
            && (forall k :: k in s.store.leases && !(k == key && s.store.leases[k].token == q.token) ==>
                  k in s'.store.leases && s'.store.leases[k] == s.store.leases[k])
            && s'.requests[r].pc == Finished(q.pc.result)
  {
    hide CachePhase;
  }

  /** And so it does when one of its calls raises: with the lease in hand, the answer waits for the release. */
  lemma RaisingBuilderGivesBack(s: Sys, r: nat)
    requires r in s.requests && (Building(s.requests[r].pc) || s.requests[r].pc.BuilderGeneration?
                                 || s.requests[r].pc.Publish?)
    ensures var s' := Apply(s, Fail(r));
            s'.requests[r] == s.requests[r].(pc := Release(Unavailable)) && s'.store == s.store
  {
    hide CachePhase;
  }

  /** A published board is found by whoever reads the counter before it moves and looks while the board lasts. */
  lemma PublishedIsFound(s: Sys, r: nat, t: Sys, q: Request)
    requires r in s.requests && s.requests[r].pc.Publish? && s.ttl > 0.0
    requires t.store.values == Apply(s, Proceed(r)).store.values && t.now < s.now + s.ttl
    requires q.Phase() == s.requests[r].Phase() && q.generation == s.requests[r].generation
    ensures Finds(t, q, s.requests[r].pc.built)
  {
    hide CachePhase;
  }
}
