/** What an administrator's edits come to: when each is refused and how, and otherwise which columns of which row have
    taken the values asked for, with every other row and column as it was. */
module AdminOutcomes {
  import opened Basics
  import opened Schema
  import opened Services
  import opened Database
  import opened SubmitRoute
  import opened AuthRoutes
  import opened AdminRoutes
  import opened Contest
  import opened WriteSets
  import opened TeamInvariants
  import opened SubmissionInvariants
  import C = ChallengeAccess
  import F = FrozenBoard
  import G = PrerequisiteGraph
  import O = SubmissionOutcomes
  import R = RegistrationCodes
  import S = Scoring

  // ---------- the event ----------

  /** What is set is in order: registration, start, freeze, end, with some time to play. */
  predicate InOrder(e: Event) {
    && (e.startAt.Some? && e.endAt.Some? ==> e.startAt.value < e.endAt.value)
    && (e.registrationAt.Some? && e.startAt.Some? ==> e.registrationAt.value <= e.startAt.value)
    && (e.freezeAt.Some? && e.startAt.Some? ==> e.startAt.value <= e.freezeAt.value)
    && (e.freezeAt.Some? && e.endAt.Some? ==> e.freezeAt.value <= e.endAt.value)
  }

  /** The life of an event. */
  predicate Precedes(from: EventState, to: EventState) {
    match from
    case Draft => to == Registration
    case Registration => to == Live
    case Live => to == Frozen
    case Frozen => to == Ended
    case Ended => to == Archived
    case Archived => false
  }

  /** The freeze has been reached at this instant, or the event is over. */
  predicate FreezeIsPast(e: Event, now: Time) {
    && e.state != Draft && e.state != Registration
    && (e.state == Live ==> e.freezeAt.Some? && e.freezeAt.value <= now)
  }

  /** The row an edit asks for: what it names, and freeze_at no later than now when it freezes the event. */
  predicate AsAsked(before: Event, p: EventPatch, checked: Time, after: Event) {
    && after.state == (if p.state.Some? then p.state.value else before.state)
    && after.registrationAt == (if p.registrationAt.Some? then p.registrationAt.value else before.registrationAt)
    && after.startAt == (if p.startAt.Some? then p.startAt.value else before.startAt)
    && after.endAt == (if p.endAt.Some? then p.endAt.value else before.endAt)
    && after.mode == (if p.mode.Some? then p.mode.value else before.mode)
    && after.access == (if p.access.Some? then p.access.value else before.access)
    && var freezeAt := if p.freezeAt.Some? then p.freezeAt.value else before.freezeAt;
       after.freezeAt == if p.state == Some(Frozen) && !(freezeAt.Some? && freezeAt.value <= checked) then Some(checked)
                         else freezeAt
  }

  lemma UpdateEventOutcome(db: Db, p: EventPatch, checked: Time)
    ensures var (db', answer) := UpdateEvent(db, p, checked); var e := db.event;
            if e.state == Archived then (db', answer) == (db, Refused(EventArchived))
            else if p.changesSlug then (db', answer) == (db, Refused(EventSlugLocked))
            else if p.freezeAt.Some? && p.freezeAt.value != e.freezeAt && FreezeIsPast(e, checked)
            then (db', answer) == (db, Refused(ScoreboardFreezeLocked))
            else if p.mode.Some? && p.mode.value != e.mode
              && ((exists u :: u in db.accounts.users && db.accounts.users[u].role == Participant)
                  || db.roster.members != map[])
            then (db', answer) == (db, Refused(TeamModeLocked))
            else if p.state.Some? && p.state.value != e.state && !Precedes(e.state, p.state.value)
            then (db', answer) == (db, Refused(InvalidStateTransition))
            else
              && (answer == Done || (db', answer) == (db, Refused(InvalidEventTimes)))
              && forall after :: AsAsked(e, p, checked, after) ==>
                   && (answer == Done <==> InOrder(after))
                   && (answer == Done ==> db' == db.(event := after, edited := db.now))
  {
    hide TimesOk;
    forall after | AsAsked(db.event, p, checked, after)
      ensures after == Patched(db.event, p, checked) && (TimesOk(after) <==> InOrder(after))
    {
      TimesOkIsOrder(after);
    }
    AskedIsPossible(db.event, p, checked);
    if u :| u in db.accounts.users && db.accounts.users[u].role == Participant {
      assert u in Participants(db.accounts.users);
    }
    if Participants(db.accounts.users) != {} { var u :| u in Participants(db.accounts.users); }
    hide Patched, AsAsked, InOrder;
  }

  lemma TimesOkIsOrder(e: Event)
    ensures TimesOk(e) <==> InOrder(e)
  {
  }

  lemma AskedIsPossible(e: Event, p: EventPatch, checked: Time)
    ensures AsAsked(e, p, checked, Patched(e, p, checked))
  {
  }

  /** The times of the event are in order in every state a run reaches. */
  lemma TimesAlwaysInOrder(start: Db, commands: seq<Command>)
    requires Bootstrapped(start) && TimelyRun(start, commands)
    ensures InOrder(Run(start, commands).event)
  {
    F.BootstrappedBoard(start);
    hide Run, Bootstrapped, TimelyRun, F.BoardInv;
    F.RunKeepsBoard(start, commands);
    InvIsOrder(Run(start, commands));
  }

  lemma InvIsOrder(db: Db)
    requires F.BoardInv(db)
    ensures InOrder(db.event)
  {
    hide TeamInv, LogInv, C.GraphInv, F.CreatorsDistinct;
    TimesOkIsOrder(db.event);
  }

  // ---------- challenges ----------

  predicate ScoringFits(s: S.Scoring) {
    1 <= s.minimum <= s.initial && 1 <= s.decay
  }

  predicate FlagTooLong(flag: Flag, limit: nat) {
    match flag
    case Exact(text) => |text| > limit
    case Regex(pattern) => |pattern| > limit
  }

  /** Why these prerequisites are refused: named twice, the challenge itself, unknown, or such that one of them leads
      back to it. */
  ghost function Objection(challenges: map<Id, Challenge>, ids: seq<Id>, target: Option<Id>): Option<Error> {
    if exists i, j :: 0 <= i < j < |ids| && ids[i] == ids[j] then Some(DuplicatePrerequisite)
    else if target.Some? && target.value in ids then Some(SelfPrerequisite)
    else if exists i :: 0 <= i < |ids| && ids[i] !in challenges then Some(InvalidPrerequisite)
    else if target.Some? && exists i :: 0 <= i < |ids| && G.Reaches(Graph(challenges), ids[i], target.value)
    then Some(PrerequisiteCycle)
    else None
  }

  lemma ObjectionExactly(challenges: map<Id, Challenge>, ids: seq<Id>, target: Option<Id>)
    ensures PrerequisiteRefusal(challenges, ids, target) == Objection(challenges, ids, target)
  {
    var g := Graph(challenges);
    hide G.Reaches;
    if k :| 0 <= k < |ids| && ids[k] !in challenges { assert ids[k] in ids && ids[k] !in g; }
    if i :| i in ids && i !in g { assert exists k :: 0 <= k < |ids| && ids[k] == i; }
    if target.Some? {
      if k :| 0 <= k < |ids| && G.Reaches(g, ids[k], target.value) { assert ids[k] in ids; }
      if i :| i in ids && G.Reaches(g, i, target.value) { assert exists k :: 0 <= k < |ids| && ids[k] == i; }
    }
  }

  /** Another challenge of the event has this slug. */
  predicate SlugIsUsed(challenges: map<Id, Challenge>, slug: string, id: Option<Id>) {
    exists c :: c in challenges && challenges[c].slug == slug && Some(c) != id
  }

  lemma CreateChallengeOutcome(db: Db, c: Challenge)
    requires forall k :: k in db.challenges ==> k < db.next
    ensures var (db', answer) := CreateChallenge(db, c);
            var objection := Objection(db.challenges, c.prerequisites, None);
            if db.event.state == Archived then (db', answer) == (db, Refused(EventArchived))
            else if FlagTooLong(c.flag, db.config.maxFlagLength) then (db', answer) == (db, Refused(Error.FlagTooLong))
            else if objection.Some? then (db', answer) == (db, Refused(objection.value))
            else if SlugIsUsed(db.challenges, c.slug, None) then (db', answer) == (db, Refused(ChallengeConflict))
            else answer == Done && exists id: Id :: id !in db.challenges && db'.challenges == db.challenges[id := c]
  {
    ObjectionExactly(db.challenges, c.prerequisites, None);
    hide PrerequisiteRefusal, Objection;
    if CreateRefusal(db, c).None? {
      assert db.next !in db.challenges && CreateChallenge(db, c).0.challenges == db.challenges[db.next := c];
    }
  }

  /** The challenge an edit asks for. */
  predicate ChallengeAsAsked(before: Challenge, p: ChallengePatch, after: Challenge) {
    && after.slug == (if p.slug.Some? then p.slug.value else before.slug)
    && after.scoring == ScoringAsked(before.scoring, p)
    && after.visible == (if p.visible.Some? then p.visible.value else before.visible)
    && after.visibleAt == (if p.visibleAt.Some? then p.visibleAt.value else before.visibleAt)
    && after.maxAttempts == (if p.maxAttempts.Some? then p.maxAttempts.value else before.maxAttempts)
    && after.flag == (if p.flag.Some? then p.flag.value else before.flag)
    && after.prerequisites == (if p.prerequisites.Some? then p.prerequisites.value else before.prerequisites)
  }

  function ScoringAsked(s: S.Scoring, p: ChallengePatch): S.Scoring {
    S.Scoring(
      if p.kind.Some? then p.kind.value else s.kind, if p.initial.Some? then p.initial.value else s.initial,
      if p.minimum.Some? then p.minimum.value else s.minimum, if p.decay.Some? then p.decay.value else s.decay)
  }

  /** An accepted edit gives the challenge the columns it names and leaves its other columns and all other challenges
      alone. */
  lemma UpdateChallengeOutcome(db: Db, id: Id, p: ChallengePatch, checked: Time)
    ensures var result := UpdateChallenge(db, id, p, checked);
            if db.event.state == Archived then result == (db, Refused(EventArchived))
            else if id !in db.challenges then result == (db, Refused(ChallengeNotFound))
            else
              var c := db.challenges[id];
              var scoring := ScoringAsked(c.scoring, p);
              var objection :=
                if p.prerequisites.Some? then Objection(db.challenges, p.prerequisites.value, Some(id)) else None;
              if scoring != c.scoring && FreezeIsPast(db.event, checked)
              then result == (db, Refused(FrozenScoringLocked))
              else if !ScoringFits(scoring) then result == (db, Refused(InvalidScoring))
              else if p.flag.Some? && FlagTooLong(p.flag.value, db.config.maxFlagLength)
              then result == (db, Refused(Error.FlagTooLong))
              else if objection.Some? then result == (db, Refused(objection.value))
              else if SlugIsUsed(db.challenges, if p.slug.Some? then p.slug.value else c.slug, Some(id))
              then result == (db, Refused(ChallengeConflict))
              else
                && result.1 == Done && result.0.challenges.Keys == db.challenges.Keys
                && ChallengeAsAsked(c, p, result.0.challenges[id])
                && forall k :: k in db.challenges && k != id ==> result.0.challenges[k] == db.challenges[k]
  {
    if p.prerequisites.Some? { ObjectionExactly(db.challenges, p.prerequisites.value, Some(id)); }
    hide PrerequisiteRefusal, Objection;
  }

  /** A challenge without submissions goes, and with it its place among the prerequisites of others, which otherwise
      stay as they are. */
  lemma DeleteChallengeOutcome(db: Db, id: Id)
    ensures var result := DeleteChallenge(db, id);
            if db.event.state == Archived then result == (db, Refused(EventArchived))
            else if id !in db.challenges then result == (db, Refused(ChallengeNotFound))
            else if exists i :: 0 <= i < |db.log.submissions| && db.log.submissions[i].challenge == id
            then result == (db, Refused(ChallengeHasSubmissions))
            else
              && result.1 == Done && result.0.challenges.Keys == db.challenges.Keys - {id}
              && forall k :: k in result.0.challenges ==>
                   var before, after := db.challenges[k], result.0.challenges[k];
                   && after == before.(prerequisites := after.prerequisites)
                   && (forall x :: x in after.prerequisites <==> x in before.prerequisites && x != id)
  {
    hide DropChallengeSolves, DropChallengeScores;
  }

  /** Showing or hiding changes that column of that challenge. */
  lemma SetVisibilityOutcome(db: Db, id: Id, visible: bool)
    ensures var result := SetVisibility(db, id, visible);
            if db.event.state == Archived then result == (db, Refused(EventArchived))
            else if id !in db.challenges then result == (db, Refused(ChallengeNotFound))
            else
              && result.1 == Done && result.0.challenges.Keys == db.challenges.Keys
              && result.0.challenges[id] == db.challenges[id].(visible := visible)
              && forall k :: k in db.challenges && k != id ==> result.0.challenges[k] == db.challenges[k]
  {
  }

  // ---------- a hidden challenge ----------

  /** The command does not show this challenge again, nor create one. */
  predicate KeepsHidden(c: Command, id: Id) {
    match c
    case DoSetVisibility(k, visible) => k == id ==> !visible
    case DoUpdateChallenge(k, p, _) => k == id && p.visible.Some? ==> !p.visible.value
    case _ => true
  }

  predicate IsHidden(db: Db, id: Id) {
    id in db.challenges ==> !db.challenges[id].visible
  }

  lemma SetupKeepsHidden(db: Db, c: Command, id: Id)
    requires OnSetup(c) && KeepsHidden(c, id) && IsHidden(db, id) && id < db.next
    ensures IsHidden(HandleSetup(db, c).0, id)
  {
    hide CreateRefusal, UpdateRefusal, NewScoring, ChallengeSubmitted, DropChallengeScores, DropChallengeSolves;
  }

  lemma StepKeepsHidden(db: Db, c: Command, id: Id, team: Id)
    requires LogInv(db) && TeamInv(db) && KeepsHidden(c, id) && IsHidden(db, id) && id < db.next
    ensures IsHidden(Step(db, c), id) && id < Step(db, c).next
    ensures Attempts(Step(db, c).log.submissions, team, id) == Attempts(db.log.submissions, team, id)
  {
    hide LogInv, TeamInv, Handle, Step, HandleSetup, SubmitFlag, KeepsHidden, Attempts;
    StepCloses(db, c);
    HandleIs(db, c);
    HandleWrites(db, c);
    HandleKeepsLog(db, c);
    if c.DoSubmit? {
      HiddenRefuses(db, c.r, c.attempt, id, team);
    } else if OnSetup(c) {
      SetupKeepsHidden(db, c, id);
    }
  }

  lemma HiddenRefuses(db: Db, r: nat, a: Attempt, id: Id, team: Id)
    requires IsHidden(db, id)
    ensures Attempts(SubmitFlag(db, r, a).0.log.submissions, team, id) == Attempts(db.log.submissions, team, id)
  {
    AcceptedExactly(db, r, a);
    if Rule(db, r, a).Accept? {
      O.AcceptedRows(db, r, a);
      var rows, rows' := db.log.submissions, SubmitFlag(db, r, a).0.log.submissions;
      O.OneMoreTry(rows, rows'[|rows|], team, id);
    }
    hide Rule, Attempts, O.FlagIsRight, S.FairPrice, O.SolvesOn, Record;
  }

  /** Over every run that does not show it again, a hidden challenge takes no submission. */
  lemma {:induction false} HiddenTakesNothing(db: Db, commands: seq<Command>, id: Id, team: Id)
    requires LogInv(db) && TeamInv(db) && IsHidden(db, id) && id < db.next
    requires forall k :: 0 <= k < |commands| ==> KeepsHidden(commands[k], id)
    ensures IsHidden(Run(db, commands), id) && id < Run(db, commands).next
    ensures Attempts(Run(db, commands).log.submissions, team, id) == Attempts(db.log.submissions, team, id)
  {
    hide LogInv, TeamInv, Step, IsHidden, KeepsHidden, Attempts;
    if commands != [] {
      var n := |commands| - 1;
      HiddenTakesNothing(db, commands[..n], id, team);
      RunKeepsLog(db, commands[..n]);
      StepKeepsHidden(Run(db, commands[..n]), commands[n], id, team);
    }
  }

  // ---------- registration codes ----------

  /** A new code is active and unused, with the bounds asked for; all other codes stay as they are. */
  lemma CreateCodeOutcome(db: Db, maxUses: Option<nat>, expires: Option<Time>)
    requires forall k :: k in db.registry.codes ==> k < db.next
    ensures var (db', answer) := CreateCode(db, maxUses, expires);
            if db.event.state == Archived then (db', answer) == (db, Refused(EventArchived))
            else
              && answer.Invite? && answer.newInvite !in db.registry.codes
              && db'.registry.codes == db.registry.codes[answer.newInvite := Code(maxUses, 0, expires, true, None)]
  {
  }

  /** A revoked code is inactive from the instant it was first revoked; all other codes stay as they are. */
  lemma RevokeCodeOutcome(db: Db, k: nat)
    ensures var (db', answer) := RevokeCode(db, k);
            if db.event.state == Archived then (db', answer) == (db, Refused(EventArchived))
            else if k !in db.registry.codes then (db', answer) == (db, Refused(CodeNotFound))
            else
              var code := db.registry.codes[k]; var at := if code.revokedAt.Some? then code.revokedAt.value else db.now;
              && answer == Done && db'.registry == db.registry.(codes := db'.registry.codes)
              && db'.registry.codes.Keys == db.registry.codes.Keys
              && db'.registry.codes[k] == Code(code.maxUses, code.uses, code.expires, false, Some(at))
              && forall c :: c in db.registry.codes && c != k ==> db'.registry.codes[c] == db.registry.codes[c]
  {
  }

  /** Over every later run a revoked code admits nobody. */
  lemma RevokedCodeAdmitsNobody(db: Db, k: nat, later: seq<Command>)
    requires R.RegInv(db) && RevokeCode(db, k).1 == Done && TimelyRun(Step(db, DoRevokeCode(k)), later)
    ensures var end := Run(Step(db, DoRevokeCode(k)), later);
            R.Spent(end, k)
            && R.AdmittedThrough(end.registry.admissions, k) == R.AdmittedThrough(db.registry.admissions, k)
  {
    RevokedIsSpent(db, k);
    R.StepKeepsReg(db, DoRevokeCode(k));
    hide Step, Run, TimelyRun, R.RegInv, R.Spent, R.AdmittedThrough, RevokeCode;
    R.SpentCodeAdmitsNobody(Step(db, DoRevokeCode(k)), later, k);
  }

  lemma RevokedIsSpent(db: Db, k: nat)
    requires RevokeCode(db, k).1 == Done
    ensures R.Spent(Step(db, DoRevokeCode(k)), k)
    ensures Step(db, DoRevokeCode(k)).registry.admissions == db.registry.admissions
  {
    RevokeCodeOutcome(db, k);
    hide RevokeCode;
  }
}
