/** Administration of backend/src/alpha/routes_admin.py and the import command of backend/src/alpha/cli.py.
    An edit reads the clock for its checks at one instant, `checked`, and commits at a later one. */
module AdminRoutes {
  import opened Basics
  import opened Schema
  import opened Services
  import opened Database
  import S = Scoring
  import G = PrerequisiteGraph

  // ---------- the event ----------

  /** The fields a request sets; absent fields stay. */
  datatype EventPatch = EventPatch(
    changesSlug: bool, state: Option<EventState>, registrationAt: Option<Option<Time>>, startAt: Option<Option<Time>>,
    freezeAt: Option<Option<Time>>, endAt: Option<Option<Time>>, mode: Option<TeamMode>, access: Option<AccessMode>)

  function Or<T>(proposed: Option<T>, current: T): T {
    if proposed.Some? then proposed.value else current
  }

  predicate TimesOk(e: Event) {
    && !(e.startAt.Some? && e.endAt.Some? && e.startAt.value >= e.endAt.value)
    && !(e.registrationAt.Some? && e.startAt.Some? && e.registrationAt.value > e.startAt.value)
    && !(e.freezeAt.Some? && e.startAt.Some? && e.freezeAt.value < e.startAt.value)
    && !(e.freezeAt.Some? && e.endAt.Some? && e.freezeAt.value > e.endAt.value)
  }

  /** freeze_at after the edit: entering `frozen` supplies the present instant unless one has been reached. */
  function NewFreezeAt(e: Event, p: EventPatch, checked: Time): Option<Time> {
    var proposed := Or(p.freezeAt, e.freezeAt);
    if p.state == Some(Frozen) && (proposed.None? || proposed.value > checked) then Some(checked) else proposed
  }

  function Patched(e: Event, p: EventPatch, checked: Time): Event {
    Event(Or(p.state, e.state), Or(p.registrationAt, e.registrationAt), Or(p.startAt, e.startAt),
          NewFreezeAt(e, p, checked), Or(p.endAt, e.endAt), Or(p.mode, e.mode), Or(p.access, e.access))
  }

  /** Why update_event refuses before it sets any field, in the order of its checks. */
  function EarlyRefusal(db: Db, p: EventPatch, checked: Time): Option<Error> {
    var e := db.event;
    if e.state == Archived then Some(EventArchived)
    else if p.changesSlug then Some(EventSlugLocked)
    else if p.freezeAt.Some? && FreezeLocked(e, checked) && p.freezeAt.value != e.freezeAt
    then Some(ScoreboardFreezeLocked)
    else if p.mode.Some? && p.mode.value != e.mode
      && (Participants(db.accounts.users) != {} || db.roster.members != map[])
    then Some(TeamModeLocked)
    else if p.state.Some? && !TransitionAllowed(e.state, p.state.value) then Some(InvalidStateTransition)
    else None
  }

  function EventRefusal(db: Db, p: EventPatch, checked: Time): Option<Error> {
    var early := EarlyRefusal(db, p, checked);
    if early.Some? then early
    else if !TimesOk(Patched(db.event, p, checked)) then Some(InvalidEventTimes)
    else None
  }

  /** update_event */
  function UpdateEvent(db: Db, p: EventPatch, checked: Time): (Db, Response) {
    match EventRefusal(db, p, checked)
    case Some(e) => (db, Refused(e))
    case None => (db.(event := Patched(db.event, p, checked), edited := db.now), Done)
  }

  // ---------- challenges ----------

  function Graph(challenges: map<Id, Challenge>): G.Graph {
    map c | c in challenges :: challenges[c].prerequisites
  }

  function LoadFailure(e: G.LoadError): Error {
    match e
    case DuplicatePrerequisite => DuplicatePrerequisite
    case SelfPrerequisite => SelfPrerequisite
    case InvalidPrerequisite => InvalidPrerequisite
    case PrerequisiteCycle => PrerequisiteCycle
  }

  predicate SlugTaken(challenges: map<Id, Challenge>, slug: string, except: Option<Id>) {
    exists c :: c in challenges && challenges[c].slug == slug && Some(c) != except
  }

  /** The unique constraint on the slugs of an event. */
  ghost predicate SlugsUnique(challenges: map<Id, Challenge>) {
    forall c :: c in challenges ==> !SlugTaken(challenges, challenges[c].slug, Some(c))
  }

  /** load_prerequisites raised this. */
  ghost function PrerequisiteRefusal(challenges: map<Id, Challenge>, ids: seq<Id>, target: Option<Id>): Option<Error> {
    match G.LoadPrerequisites(Graph(challenges), ids, target)
    case Failure(e) => Some(LoadFailure(e))
    case Success(_) => None
  }

  /** Why create_challenge refuses. Request validation has already refused scoring the table cannot hold. */
  ghost function CreateRefusal(db: Db, c: Challenge): Option<Error> {
    if db.event.state == Archived then Some(EventArchived)
    else if |FlagText(c.flag)| > db.config.maxFlagLength then Some(FlagTooLong)
    else
      var refused := PrerequisiteRefusal(db.challenges, c.prerequisites, None);
      if refused.Some? then refused
      else if SlugTaken(db.challenges, c.slug, None) then Some(ChallengeConflict)
      else None
  }

  /** create_challenge, and import-challenge for a new slug. */
  ghost function CreateChallenge(db: Db, c: Challenge): (Db, Response) {
    match CreateRefusal(db, c)
    case Some(e) => (db, Refused(e))
    case None => (db.(next := db.next + 1, challenges := db.challenges[db.next := c]), Done)
  }

  function FlagText(f: Flag): string {
    match f
    case Exact(text) => text
    case Regex(pattern) => pattern
  }

  datatype ChallengePatch = ChallengePatch(
    slug: Option<string>, kind: Option<S.Kind>, initial: Option<int>, minimum: Option<int>, decay: Option<int>,
    visible: Option<bool>, visibleAt: Option<Option<Time>>, maxAttempts: Option<nat>, flag: Option<Flag>,
    prerequisites: Option<seq<Id>>)

  function NewScoring(s: S.Scoring, p: ChallengePatch): S.Scoring {
    S.Scoring(Or(p.kind, s.kind), Or(p.initial, s.initial), Or(p.minimum, s.minimum), Or(p.decay, s.decay))
  }

  /** Why update_challenge refuses: assert_scoring_mutable, the columns, then the new prerequisites. */
  ghost function UpdateRefusal(db: Db, id: Id, p: ChallengePatch, checked: Time): (refusal: Option<Error>)
    ensures refusal.None? ==> id in db.challenges && NewScoring(db.challenges[id].scoring, p).Valid()
  {
    if db.event.state == Archived then Some(EventArchived)
    else if id !in db.challenges then Some(ChallengeNotFound)
    else
      var c := db.challenges[id];
      if NewScoring(c.scoring, p) != c.scoring && FreezeLocked(db.event, checked) then Some(FrozenScoringLocked)
      else if !NewScoring(c.scoring, p).Valid() then Some(InvalidScoring)
      else if p.flag.Some? && |FlagText(p.flag.value)| > db.config.maxFlagLength then Some(FlagTooLong)
      else
        var refused := if p.prerequisites.None? then None
                       else PrerequisiteRefusal(db.challenges, p.prerequisites.value, Some(id));
        if refused.Some? then refused
        else if SlugTaken(db.challenges, Or(p.slug, c.slug), Some(id)) then Some(ChallengeConflict)
        else None
  }

  function PatchedChallenge(c: Challenge, p: ChallengePatch): Challenge
    requires NewScoring(c.scoring, p).Valid()
  {
    Challenge(Or(p.slug, c.slug), NewScoring(c.scoring, p), Or(p.visible, c.visible), Or(p.visibleAt, c.visibleAt),
              Or(p.maxAttempts, c.maxAttempts), Or(p.flag, c.flag), Or(p.prerequisites, c.prerequisites))
  }

  /** update_challenge, and import-challenge for a slug that exists. */
  ghost function UpdateChallenge(db: Db, id: Id, p: ChallengePatch, checked: Time): (Db, Response) {
    match UpdateRefusal(db, id, p, checked)
    case Some(e) => (db, Refused(e))
    case None => (db.(challenges := db.challenges[id := PatchedChallenge(db.challenges[id], p)]), Done)
  }

  /** ON DELETE CASCADE from challenges: links in both directions, submissions, solves and score events. */
  function DropLinks(challenges: map<Id, Challenge>, id: Id): map<Id, Challenge> {
    map c | c in challenges && c != id :: challenges[c].(prerequisites := G.Without(challenges[c].prerequisites, id))
  }

  function DropChallengeSolves(rows: seq<Solve>, id: Id): seq<Solve> {
    if rows == [] then []
    else var n := |rows| - 1; DropChallengeSolves(rows[..n], id) + (if rows[n].challenge == id then [] else [rows[n]])
  }

  function DropChallengeScores(rows: seq<ScoreEvent>, id: Id): seq<ScoreEvent> {
    if rows == [] then []
    else var n := |rows| - 1;
      DropChallengeScores(rows[..n], id) + (if rows[n].challenge == Some(id) then [] else [rows[n]])
  }

  /** delete_challenge */
  function DeleteChallenge(db: Db, id: Id): (Db, Response) {
    if db.event.state == Archived then (db, Refused(EventArchived))
    else if id !in db.challenges then (db, Refused(ChallengeNotFound))
    else if ChallengeSubmitted(db.log.submissions, id) then (db, Refused(ChallengeHasSubmissions))
    else
      (db.(challenges := DropLinks(db.challenges, id),
           log := Log(db.log.submissions,
                      DropChallengeSolves(db.log.solves, id),
                      DropChallengeScores(db.log.scores, id))),
       Done)
  }

  /** set_visibility */
  function SetVisibility(db: Db, id: Id, visible: bool): (Db, Response) {
    if db.event.state == Archived then (db, Refused(EventArchived))
    else if id !in db.challenges then (db, Refused(ChallengeNotFound))
    else (db.(challenges := db.challenges[id := db.challenges[id].(visible := visible)]), Done)
  }

  // ---------- users and codes ----------

  /** update_user_status */
  function UpdateUserStatus(db: Db, id: Id, active: bool): (Db, Response) {
    if id !in db.accounts.users || db.accounts.users[id].role != Participant then (db, Refused(ParticipantRequired))
    else
      var user := db.accounts.users[id];
      if user.active == active then
        (if active then db
         else db.(accounts := db.accounts.(sessions := WithoutSessionsOf(db.accounts.sessions, id))),
         Done)
      else if active then (db.(accounts := db.accounts.(users := db.accounts.users[id := user.(active := true)])), Done)
      else
        (db.(accounts := Accounts(db.accounts.users[id := user.(active := false, version := user.version + 1)],
                                  WithoutSessionsOf(db.accounts.sessions, id))),
         Done)
  }

  /** create_registration_code; validation bounds max_uses by 1 and 10,000. */
  function CreateCode(db: Db, maxUses: Option<nat>, expires: Option<Time>): (Db, Response) {
    if db.event.state == Archived then (db, Refused(EventArchived))
    else 
      (db.(next := db.next + 1,
           registry := db.registry.(codes := db.registry.codes[db.next := Code(maxUses, 0, expires, true, None)])),
       Invite(db.next))
  }

  /** revoke_registration_code */
  function RevokeCode(db: Db, id: nat): (Db, Response) {
    if db.event.state == Archived then (db, Refused(EventArchived))
    else if id !in db.registry.codes then (db, Refused(CodeNotFound))
    else
      var code := db.registry.codes[id];
      if code.active || code.revokedAt.None? then
        var revoked := code.(active := false, revokedAt := Some(Or(code.revokedAt, db.now)));
        (db.(registry := db.registry.(codes := db.registry.codes[id := revoked])), Done)
      else (db, Done)
  }
}
