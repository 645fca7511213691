/** The prerequisite graph over all runs, and what it means for a team: no challenge is ever locked out. */
module ChallengeAccess {
  import opened Basics
  import opened Schema
  import opened Database
  import opened SubmitRoute
  import opened AdminRoutes
  import opened TeamRoutes
  import opened AuthRoutes
  import opened Contest
  import opened WriteSets
  import opened TeamInvariants
  import opened SubmissionInvariants
  import G = PrerequisiteGraph

  type Challenges = map<Id, Challenge>

  ghost predicate GraphInv(challenges: Challenges, next: nat) {
    && (forall c :: c in challenges ==> c < next)
    && G.Closed(Graph(challenges)) && G.Acyclic(Graph(challenges)) && SlugsUnique(challenges)
  }

  lemma CreateKeepsSlugs(db: Db, c: Challenge)
    requires SlugsUnique(db.challenges) && !SlugTaken(db.challenges, c.slug, None)
    ensures SlugsUnique(db.challenges[db.next := c])
  {
  }

  lemma UpdateKeepsSlugs(db: Db, id: Id, c: Challenge)
    requires SlugsUnique(db.challenges) && !SlugTaken(db.challenges, c.slug, Some(id))
    ensures SlugsUnique(db.challenges[id := c])
  {
  }

  lemma DeleteKeepsSlugs(challenges: Challenges, id: Id)
    requires SlugsUnique(challenges)
    ensures SlugsUnique(DropLinks(challenges, id))
  {
  }

  lemma VisibilityKeepsSlugs(before: Challenges, after: Challenges)
    requires SlugsUnique(before) && after.Keys == before.Keys
    requires forall c :: c in before ==> after[c].slug == before[c].slug
    ensures SlugsUnique(after)
  {
  }

  lemma CreateKeepsGraph(db: Db, c: Challenge)
    requires GraphInv(db.challenges, db.next)
    ensures GraphInv(CreateChallenge(db, c).0.challenges, CreateChallenge(db, c).0.next)
  {
    hide G.Acyclic, G.Closed, SlugsUnique, SlugTaken;
    if CreateRefusal(db, c).None? {
      assert !SlugTaken(db.challenges, c.slug, None);
      hide CreateRefusal;
      CreateKeepsSlugs(db, c);
      assert Graph(db.challenges[db.next := c]) == Graph(db.challenges)[db.next := c.prerequisites];
      CreatedPrerequisites(db, c);
      G.CreateKeepsAcyclic(Graph(db.challenges), db.next, c.prerequisites);
    }
  }

  lemma CreatedPrerequisites(db: Db, c: Challenge)
    requires CreateRefusal(db, c).None?
    ensures forall i :: i in c.prerequisites ==> i in db.challenges
  {
    hide G.Reaches, SlugTaken;
  }

  lemma UpdatedPrerequisites(db: Db, id: Id, p: ChallengePatch, checked: Time)
    requires UpdateRefusal(db, id, p, checked).None? && p.prerequisites.Some?
    ensures id in db.challenges && forall i :: i in p.prerequisites.value ==> i in db.challenges
    ensures !exists i :: i in p.prerequisites.value && G.Reaches(Graph(db.challenges), i, id)
  {
    hide G.Reaches, SlugTaken, NewScoring;
  }

  lemma UpdatedSlug(db: Db, id: Id, p: ChallengePatch, checked: Time)
    requires UpdateRefusal(db, id, p, checked).None?
    ensures id in db.challenges && !SlugTaken(db.challenges, Or(p.slug, db.challenges[id].slug), Some(id))
  {
    hide PrerequisiteRefusal, SlugTaken, NewScoring;
  }

  lemma UpdateKeepsGraph(db: Db, id: Id, p: ChallengePatch, checked: Time)
    requires GraphInv(db.challenges, db.next)
    ensures GraphInv(UpdateChallenge(db, id, p, checked).0.challenges, UpdateChallenge(db, id, p, checked).0.next)
  {
    hide G.Acyclic, G.Closed, SlugsUnique, SlugTaken;
    if UpdateRefusal(db, id, p, checked).None? {
      var updated := PatchedChallenge(db.challenges[id], p);
      UpdatedSlug(db, id, p, checked);
      UpdateKeepsSlugs(db, id, updated);
      var g := Graph(db.challenges);
      assert Graph(db.challenges[id := updated]) == g[id := updated.prerequisites];
      if p.prerequisites.Some? {
        UpdatedPrerequisites(db, id, p, checked);
        hide UpdateRefusal;
        G.EditClosesCycle(g, id, updated.prerequisites);
        EditKeepsClosed(g, id, updated.prerequisites);
      } else {
        assert g[id := updated.prerequisites] == g;
      }
    }
  }

  lemma EditKeepsClosed(g: G.Graph, id: Id, ids: seq<Id>)
    requires G.Closed(g) && id in g && forall i :: i in ids ==> i in g
    ensures G.Closed(g[id := ids])
  {
  }

  lemma DeleteKeepsGraph(db: Db, id: Id)
    requires GraphInv(db.challenges, db.next)
    ensures GraphInv(DeleteChallenge(db, id).0.challenges, DeleteChallenge(db, id).0.next)
  {
    hide G.Acyclic, G.Closed, SlugsUnique;
    DeleteKeepsSlugs(db.challenges, id);
    assert Graph(DropLinks(db.challenges, id)) == G.RemoveNode(Graph(db.challenges), id);
    G.DeleteKeepsAcyclic(Graph(db.challenges), id);
  }

  lemma SetupKeepsGraph(db: Db, c: Command)
    requires GraphInv(db.challenges, db.next) && OnSetup(c)
    ensures GraphInv(HandleSetup(db, c).0.challenges, HandleSetup(db, c).0.next)
  {
    hide G.Acyclic, G.Closed, SlugsUnique, CreateChallenge, UpdateChallenge, DeleteChallenge;
    match c
    case DoCreateChallenge(challenge) => CreateKeepsGraph(db, challenge);
    case DoUpdateChallenge(id, p, checked) => UpdateKeepsGraph(db, id, p, checked);
    case DoDeleteChallenge(id) => DeleteKeepsGraph(db, id);
    case DoSetVisibility(id, visible) =>
      assert Graph(HandleSetup(db, c).0.challenges) == Graph(db.challenges);
      VisibilityKeepsSlugs(db.challenges, HandleSetup(db, c).0.challenges);
    case _ =>
  }

  lemma HandleKeepsGraph(db: Db, c: Command)
    requires GraphInv(db.challenges, db.next)
    ensures GraphInv(Handle(db, c).0.challenges, Handle(db, c).0.next)
  {
    hide Handle, HandleTeams, HandleBegin, HandleAccounts, HandleSetup, RegisterFinish, LoginAttempt, PasswordAttempt,
         SubmitFlag, UpdateEvent, G.Acyclic, G.Closed, SlugsUnique;
    HandleIs(db, c);
    if OnSetup(c) {
      SetupKeepsGraph(db, c);
    } else {
      HandleWrites(db, c);
    }
  }

  lemma StepKeepsGraph(db: Db, c: Command)
    requires GraphInv(db.challenges, db.next)
    ensures GraphInv(Step(db, c).challenges, Step(db, c).next)
  {
    hide Handle, Step, G.Acyclic, G.Closed, SlugsUnique;
    HandleKeepsGraph(db, c);
    StepCloses(db, c);
  }

  lemma {:induction false} RunKeepsGraph(db: Db, commands: seq<Command>)
    requires GraphInv(db.challenges, db.next)
    ensures GraphInv(Run(db, commands).challenges, Run(db, commands).next)
  {
    hide GraphInv, Step;
    if commands != [] {
      RunKeepsGraph(db, commands[..|commands| - 1]);
      StepKeepsGraph(Run(db, commands[..|commands| - 1]), commands[|commands| - 1]);
    }
  }

  lemma BootstrappedGraph(db: Db)
    requires Bootstrapped(db)
    ensures GraphInv(db.challenges, db.next)
  {
    var g := Graph(db.challenges);
    forall p ensures !(G.IsPath(g, p) && |p| >= 2) {
      if G.IsPath(g, p) && |p| >= 2 { LongPathHasEdge(g, p); }
    }
  }

  lemma LongPathHasEdge(g: G.Graph, p: seq<Id>)
    requires G.IsPath(g, p) && |p| >= 2
    ensures exists x :: x in g && g[x] != []
  {
    assert p[0 + 1] in g[p[0]];
  }

  /** Whatever edits, imports and deletions have been made, prerequisites form an acyclic graph over
      challenges that exist. */
  lemma {:induction false} PrerequisitesAlwaysAcyclic(db: Db, commands: seq<Command>)
    requires Bootstrapped(db)
    ensures GraphInv(Run(db, commands).challenges, Run(db, commands).next)
  {
    hide GraphInv, Run, Bootstrapped;
    BootstrappedGraph(db);
    RunKeepsGraph(db, commands);
  }

  /** A team that starts with `solved` and works through `order` meets every challenge unlocked. */
  ghost predicate AlwaysUnlocked(challenges: Challenges, order: seq<Id>, solved: set<Id>, now: Time) {
    forall k :: 0 <= k < |order| ==>
      order[k] in challenges && IsAccessible(challenges[order[k]], solved + (set x | x in order[..k]), now)
  }

  /** With everything visible, some order visits every challenge once and meets each one accessible at
      its turn: prerequisites never lock a challenge out. */
  lemma NothingIsLockedOut(db: Db, commands: seq<Command>, now: Time, solved: set<Id>)
    requires Bootstrapped(db)
    requires var end := Run(db, commands); forall c :: c in end.challenges ==> VisibleNow(end.challenges[c], now)
    ensures var end := Run(db, commands);
            exists order ::
              G.IsSolvingOrder(Graph(end.challenges), order) && AlwaysUnlocked(end.challenges, order, solved, now)
  {
    hide Run, Bootstrapped, G.Acyclic, G.Closed, VisibleNow;
    var end := Run(db, commands);
    PrerequisitesAlwaysAcyclic(db, commands);
    var g := Graph(end.challenges);
    G.AcyclicIffSolvable(g);
    var order :| G.IsSolvingOrder(g, order);
    forall k | 0 <= k < |order|
      ensures order[k] in end.challenges
              && IsAccessible(end.challenges[order[k]], solved + (set x | x in order[..k]), now)
    {
      assert order[k] in order;
      assert g[order[k]] == end.challenges[order[k]].prerequisites;
    }
    assert AlwaysUnlocked(end.challenges, order, solved, now);
  }

  // ---------- solves come in the order of the prerequisites ----------

  /** Before every solve stand the same team's solves of all prerequisites. */
  ghost predicate Follows(solves: seq<Solve>, challenges: Challenges) {
    forall k, p :: 0 <= k < |solves| && Needs(challenges, solves[k].challenge, p) ==>
      IsSolved(solves[..k], solves[k].team, p)
  }

  predicate Needs(challenges: Challenges, challenge: Id, p: Id) {
    challenge in challenges && p in challenges[challenge].prerequisites
  }

  /** The command does not give an existing challenge other prerequisites. */
  predicate KeepsPrerequisites(c: Command) {
    c.DoUpdateChallenge? ==> c.patch.prerequisites.None?
  }

  lemma RecordFollows(db: Db, r: nat, a: Attempt)
    requires Follows(db.log.solves, db.challenges)
    ensures Follows(SubmitFlag(db, r, a).0.log.solves, db.challenges)
  {
    hide Rule, IsCorrect, SolveCount, Needs, IsSolved;
    var solves' := SubmitFlag(db, r, a).0.log.solves;
    var ruling := Rule(db, r, a);
    if ruling.Accept? && IsCorrect(ruling.challenge, a) {
      AcceptedNeeds(db, r, a);
      forall k, p | 0 <= k < |solves'| && Needs(db.challenges, solves'[k].challenge, p)
        ensures IsSolved(solves'[..k], solves'[k].team, p)
      {
        assert solves'[..|db.log.solves|] == db.log.solves;
        if k < |db.log.solves| { assert solves'[..k] == db.log.solves[..k]; }
      }
    }
  }

  lemma AcceptedNeeds(db: Db, r: nat, a: Attempt)
    requires Rule(db, r, a).Accept?
    ensures forall p :: Needs(db.challenges, a.challenge, p) ==> IsSolved(db.log.solves, Rule(db, r, a).team, p)
  {
    AcceptedExactly(db, r, a);
    AcceptIsAdmitted(db, r, a);
    hide Rule, IsSolved;
  }

  /** Challenges come and go and change, but nobody needs anything new for a challenge that has been solved. */
  lemma SetupAddsNoNeeds(db: Db, c: Command, challenge: Id, p: Id)
    requires OnSetup(c) && KeepsPrerequisites(c) && challenge in db.challenges && db.next !in db.challenges
    requires Needs(HandleSetup(db, c).0.challenges, challenge, p)
    ensures Needs(db.challenges, challenge, p)
  {
    hide CreateRefusal, UpdateRefusal, NewScoring, ChallengeSubmitted;
  }

  lemma FewerNeedsFollow(solves: seq<Solve>, before: Challenges, after: Challenges)
    requires Follows(solves, before)
    requires forall k, p :: 0 <= k < |solves| && Needs(after, solves[k].challenge, p) ==>
               Needs(before, solves[k].challenge, p)
    ensures Follows(solves, after)
  {
    hide Needs, IsSolved;
  }

  ghost predicate OrderInv(db: Db) {
    TeamInv(db) && LogInv(db) && GraphInv(db.challenges, db.next) && Follows(db.log.solves, db.challenges)
  }

  lemma HandleFollows(db: Db, c: Command)
    requires OrderInv(db) && KeepsPrerequisites(c)
    ensures Follows(Handle(db, c).0.log.solves, Handle(db, c).0.challenges)
  {
    hide Handle, HandleSetup, HandleTeams, HandleBegin, HandleAccounts, SubmitFlag, UpdateEvent, RegisterFinish,
         LoginAttempt, PasswordAttempt, TeamInv, LogInv, Follows, Needs, G.Acyclic, G.Closed;
    HandleIs(db, c);
    HandleWrites(db, c);
    HandleKeepsLog(db, c);
    if c.DoSubmit? {
      RecordFollows(db, c.r, c.attempt);
    } else if OnSetup(c) {
      SolvesAnchored(db);
      var after := Handle(db, c).0.challenges;
      forall k, p | 0 <= k < |db.log.solves| && Needs(after, db.log.solves[k].challenge, p)
        ensures Needs(db.challenges, db.log.solves[k].challenge, p)
      {
        SetupAddsNoNeeds(db, c, db.log.solves[k].challenge, p);
      }
      FewerNeedsFollow(db.log.solves, db.challenges, after);
    }
  }

  lemma StepKeepsOrder(db: Db, c: Command)
    requires OrderInv(db) && KeepsPrerequisites(c)
    ensures OrderInv(Step(db, c))
  {
    hide Handle, Step, TeamInv, LogInv, GraphInv, Follows;
    HandleFollows(db, c);
    StepKeepsLog(db, c);
    StepKeepsGraph(db, c);
    StepCloses(db, c);
  }

  lemma {:induction false} RunKeepsOrder(db: Db, commands: seq<Command>)
    requires OrderInv(db) && forall k :: 0 <= k < |commands| ==> KeepsPrerequisites(commands[k])
    ensures OrderInv(Run(db, commands))
  {
    hide OrderInv, Step, KeepsPrerequisites;
    if commands != [] {
      var n := |commands| - 1;
      RunKeepsOrder(db, commands[..n]);
      StepKeepsOrder(Run(db, commands[..n]), commands[n]);
    }
  }

  lemma BootstrappedOrder(db: Db)
    requires Bootstrapped(db)
    ensures OrderInv(db)
  {
    hide TeamInv, LogInv, GraphInv;
    BootstrappedLog(db);
    BootstrappedGraph(db);
  }

  /** As long as nobody rewrites prerequisites, over all runs every team solves a challenge only after all of them. */
  lemma {:induction false} SolvesFollowPrerequisites(db: Db, commands: seq<Command>)
    requires Bootstrapped(db) && forall k :: 0 <= k < |commands| ==> KeepsPrerequisites(commands[k])
    ensures Follows(Run(db, commands).log.solves, Run(db, commands).challenges)
  {
    hide Bootstrapped, Run, Follows, KeepsPrerequisites, TeamInv, LogInv, GraphInv;
    BootstrappedOrder(db);
    RunKeepsOrder(db, commands);
  }
}
