/** The tables of backend/src/alpha/models.py as values. The deployment holds one event row, which
    bootstrap creates once; every other table is a map from its key or a sequence in commit order. */
module Schema {
  import opened Basics
  import Scoring

  type Id = nat

  type Time = real

  datatype EventState = Draft | Registration | Live | Frozen | Ended | Archived {
    function Index(): nat {
      match this
      case Draft => 0
      case Registration => 1
      case Live => 2
      case Frozen => 3
      case Ended => 4
      case Archived => 5
    }
  }

  datatype TeamMode = Teams | Individual

  datatype AccessMode = Open | CodeOnly

  datatype Event = Event(
    state: EventState, registrationAt: Option<Time>, startAt: Option<Time>, freezeAt: Option<Time>,
    endAt: Option<Time>, mode: TeamMode, access: AccessMode)

  /** An exact flag is stored as an injective keyed hash, so it stands for its text. */
  datatype Flag = Exact(text: string) | Regex(pattern: string)

  datatype Challenge = Challenge(
    slug: string, scoring: Scoring.Parameters, visible: bool, visibleAt: Option<Time>, maxAttempts: nat,
    flag: Flag, prerequisites: seq<Id>)

  /** Argon2: a salt makes equal passwords look different, and only the password itself verifies. */
  datatype PasswordHash = PasswordHash(salt: nat, password: string)

  /** A name, an email or a username, with what the database's lower() makes of it. */
  datatype Name = Name(text: string, folded: string)

  datatype Role = Participant | Admin

  datatype User = User(
    email: Name, username: Name, hash: PasswordHash, role: Role, active: bool, mustChange: bool, version: nat)

  datatype Session = Session(user: Id, version: nat, created: Time, expires: Time)

  datatype Team = Team(name: Name, invite: nat, creator: Id)

  datatype TeamRole = Owner | Member

  datatype Membership = Membership(team: Id, role: TeamRole)

  datatype Code = Code(maxUses: Option<nat>, uses: nat, expires: Option<Time>, active: bool, revokedAt: Option<Time>)

  datatype Submission = Submission(
    id: Id, team: Id, challenge: Id, user: Id, correct: bool, awarded: int, key: string, at: Time)

  datatype Solve = Solve(id: Id, team: Id, challenge: Id, user: Id, submission: Id, at: Time)

  datatype ScoreKind = SolveScore(solve: Id) | Award

  datatype ScoreEvent = ScoreEvent(
    id: Id, team: Id, challenge: Option<Id>, kind: ScoreKind, points: int, active: bool, at: Time)

  /** The audit rows about teams; only the first six actions count towards the lifetime limit. */
  datatype TeamAction = Created | Joined | InviteRotated | Left | OwnerTransferred | MemberRemoved | SoloCreated

  datatype Audit = Audit(actor: Id, action: TeamAction)
}

/** Event gates of backend/src/alpha/services.py. */
module Services {
  import opened Basics
  import opened Schema

  predicate ReachedBy(at: Option<Time>, now: Time) {
    at.Some? && at.value <= now
  }

  predicate Started(event: Event, now: Time) {
    event.startAt.None? || event.startAt.value <= now
  }

  predicate NotEnded(event: Event, now: Time) {
    event.endAt.None? || now < event.endAt.value
  }

  predicate AllowsRegistration(event: Event, now: Time) {
    event.state == Registration && (event.registrationAt.None? || event.registrationAt.value <= now)
      && NotEnded(event, now)
  }

  predicate AllowsSubmission(event: Event, now: Time) {
    (event.state == Live || event.state == Frozen) && Started(event, now) && NotEnded(event, now)
  }

  /** assert_state_transition lets the change through. */
  predicate TransitionAllowed(from: EventState, to: EventState) {
    to == from || (from != Archived && to.Index() == from.Index() + 1)
  }

  /** scoreboard_freeze_locked */
  predicate FreezeLocked(event: Event, now: Time) {
    event.state == Frozen || event.state == Ended || event.state == Archived
    || (event.state == Live && ReachedBy(event.freezeAt, now))
  }

  /** public_scoreboard_is_frozen */
  predicate BoardFrozen(event: Event, now: Time) {
    event.state == Frozen || (event.state == Live && ReachedBy(event.freezeAt, now))
  }

  datatype Phase = LivePhase | FrozenPhase | FinalPhase

  /** public_scoreboard_cache_phase */
  function CachePhase(event: Event, now: Time): Phase {
    if event.state == Ended || event.state == Archived then FinalPhase
    else if BoardFrozen(event, now) then FrozenPhase
    else LivePhase
  }

  /** The rows a board shows: those stamped at or before freeze_at while it is frozen, all of them otherwise. */
  function Cutoff(event: Event, now: Time): Option<Time> {
    if BoardFrozen(event, now) then event.freezeAt else None
  }

  // ---------- what the gates mean together ----------

  /** Registration is open from registration_at, if set, until just before end_at, if set, and in its state only. */
  lemma RegistrationWindow(event: Event, now: Time)
    ensures AllowsRegistration(event, now) <==>
              event.state.Registration? && !(event.registrationAt.Some? && now < event.registrationAt.value)
              && !(event.endAt.Some? && event.endAt.value <= now)
  {
  }

  /** No two instants of the clock open submission and registration under one event row. */
  lemma SubmissionWindow(event: Event, now: Time, other: Time)
    ensures !(AllowsSubmission(event, now) && AllowsRegistration(event, other))
  {
  }

  /** freeze_at and scoring are locked exactly while the board is frozen or final. */
  lemma LockedExactly(event: Event, now: Time)
    ensures FreezeLocked(event, now) <==> CachePhase(event, now) != LivePhase
    ensures CachePhase(event, now) == FrozenPhase <==> BoardFrozen(event, now)
    ensures CachePhase(event, now) == FinalPhase <==> event.state.Ended? || event.state.Archived?
  {
  }

  /** Boards cached under one phase of an event apply the same cutoff. */
  lemma SamePhaseSameCutoff(event: Event, a: Time, b: Time)
    requires CachePhase(event, a) == CachePhase(event, b)
    ensures Cutoff(event, a) == Cutoff(event, b)
  {
  }
}
