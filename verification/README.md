# CTFnight scoring backend: a verified model

A Dafny model of the backend that runs a capture-the-flag event: accounts and sessions, teams, challenges with
prerequisites, flag submission, dynamic scoring, the public scoreboard with its freeze and its cache, and the two
client-side algorithms that page and print the submission list. `dafny verify dfyconfig.toml` checks all of it.

The model has two levels.

* **Interleaved.** `ScoreboardCache`, `SubmissionProtocol` and `LockOrder` take the handlers apart into store calls, SQL
  statements and lock requests and let any number of requests interleave. Each statement sees every earlier commit,
  row locks are held to the end of the transaction, and a commit and its generation increment are separate steps.
* **Transactional.** `Database` holds the tables as maps and sequences together with the clock; `TeamRoutes`,
  `SubmitRoute`, `AuthRoutes` and `AdminRoutes` give each handler as a function from the state and the request to the
  new state and the answer. A request that looks at the database, lets go and comes back (authentication before the
  locks, registration, login, password change) is split: what it remembers is a `Flight`. `Contest` makes steps and
  runs of all of them, and the invariant modules speak about every run; `Soundness` puts the invariants together.
  `Backend.Server` carries every one of these handlers out on mutable tables, with their early refusals and rollbacks,
  keeps that invariant, and serves whole runs as the functions say. `SubmissionRefinement` ties the interleaved
  submissions to the transaction and to the lock scripts, and `ScoreboardContents` the cached boards to the tables.

| file | part of the system |
|---|---|
| `Schema`, `Database` | tables, event gates, queries, sessions |
| `TeamRoutes`, `SubmitRoute`, `AuthRoutes`, `AdminRoutes`, `Contest` | the handlers as transactions, and runs of them |
| `Backend` | the handlers as they run, and a server that serves runs |
| `WriteSets`, `TeamInvariants`, `SubmissionInvariants`, `Credentials`, `RegistrationCodes`, `ChallengeAccess`, `FrozenBoard`, `Soundness` | what every run keeps |
| `SubmissionOutcomes`, `SessionLifetimes`, `TeamOutcomes`, `AccountOutcomes`, `AdminOutcomes` | what each handler comes to: refusals and effects |
| `ConcreteRun` | a run from bootstrap that shows two of the findings |
| `Scoring`, `Scoreboard`, `PublicBoard`, `TopList` | points, the aggregate query, what it shows, ranking |
| `ScoreboardCache`, `ScoreboardEventRow`, `ScoreboardContents`, `ScoreboardAnswers`, `EphemeralStore`, `SubmissionRate` | cache protocol, what its boards show and how requests are answered, store, rate limits |
| `SubmissionProtocol`, `LockOrder`, `SubmissionRefinement` | concurrent submissions and lock order |
| `PrerequisiteGraph` | the prerequisite search |
| `Paging`, `Csv` | submission list paging and CSV printing |

Assumptions: statements read committed data, the clock does not go backwards, and randomly drawn tokens, ids, invites
and salts never repeat (they come from a counter). Hashes stand for their texts, except that a password hash carries a
salt. Whether a regular expression matches, whether the rate windows (of submission, team changes, registration, sign-in
and password change) let a request through, and the instants at which a handler reads the clock are parameters of the
request. Scores are exact rationals with an explicit tie rule.

Findings about the code:

* `assert_freeze_at_mutable` and `assert_scoring_mutable` read the clock when they run, and the edit commits later. An
  edit that straddles the freeze instant can lift the freeze or change the scoring of a frozen board
  (`FrozenBoard.StraddlingEditThaws`); `FreezeHoldsExactly` and `ScoringHoldsExactly` say exactly when it cannot.
* A solve stamped by `freeze_at` that commits after it changes a board that is already frozen; no other submission does
  (`FrozenBoard.SubmissionKeepsBoardExactly`, and `ConcreteRun.LateSolveHappens` for a run from bootstrap).
* The cache guard does not cover the event row, which is read before the generation. A request that arrives after an
  edit and its increment can be answered from the cache with a board of the replaced row
  (`ScoreboardCache.StaleEventRow`). The row misses a completed commit if and only if that commit came after the
  building request's arrival (`ScoreboardEventRow.RowMissesExactly`); with the counter unmoved since that arrival it
  misses none (`RowIsCurrentWhenUnmoved`).
* A database that rounds halves away from zero shows one point more on exact ties (`Scoring.SqlTieDiffers`).
* An empty grid and a row without cells do not survive printing (`Csv.RoundTripExactly`).
* A replay inside a request that was authenticated before a suspension is still answered with the stored verdict, since
  the idempotency key is looked up before the account is locked. It writes nothing, and it is answered exactly while
  submissions are open and the flag is not too long (`SubmissionInvariants.ReplayIsHarmless`, and its instance
  `Soundness.RevokedReplayIsAnswered`); `ConcreteRun.RevokedReplayHappens` is a
  run from bootstrap that ends so.

## Model

| member | source | states |
|---|---|---|
| ScoreboardCache.ServedBoardIsCoherent | backend/src/alpha/routes_participant.py:520-579 | In every interleaving of readers, builders, commits, increments, deletes, expiries and store failures, a board that a request answers with, cached or freshly built, was aggregated (both statements of it) after every commit whose increment had completed when the request last read the counter, and for the phase of the key it sits under. |
| ScoreboardCache.QuietBoardIsCurrent | backend/src/alpha/routes_participant.py:520-568 | When every commit has completed its increment and the counter still has the value the request read, the served board contains every commit: the cache agrees with the slow aggregate. |
| ScoreboardCache.OneBuilderPerLease | backend/src/alpha/routes_participant.py:537-589 | Two requests are never building the same phase while both leases run: whoever builds beside another has outlived its lease. |
| ScoreboardCache.StaleEventRow | backend/src/alpha/routes_participant.py:517-573 | The guard does not cover the event row, which is read before the generation: for any two rows of one phase there is a run in which a request that arrives after the edit and its increment are through, and reads the counter after that, is answered from the cache with a board of the replaced row. |
| ScoreboardEventRow.RowIsCurrentWhenUnmoved | backend/src/alpha/routes_participant.py:517-573 | When the counter a served request last read is still the one at which the building request arrived, the board's event row covers every commit whose increment had completed by that read. |
| ScoreboardEventRow.RowMissesExactly | backend/src/alpha/routes_participant.py:517-573 | In every interleaving the event row of a served board misses a commit that had completed when the request last read the counter if and only if that commit was made after the building request arrived; the row is the one that stood at that arrival. |
| ScoreboardCache.RunKeepsCache | backend/src/alpha/store.py:63-113 | Every run keeps each cache entry and each request sound for the counter value it carries. |
| ScoreboardCache.NextCall | backend/src/alpha/routes_participant.py:533-589 | The handler's next call, carried out on the in-memory store, ends in the store and request of the protocol step. |
| ScoreboardAnswers.AnswersExactly | backend/src/alpha/routes_participant.py:533-589 | In every interleaving: a request is answered with a board exactly when one of its looks found that board, unexpired and of the generation it last read, or it published it; as busy exactly when neither of its two looks found one and a lease was running in between; as changed exactly when the counter had moved between the builder's read and its check; and as unavailable exactly when a call of its own raised. |
| ScoreboardAnswers.TenStepsAnswer | backend/src/alpha/routes_participant.py:516-589 | Whatever others do, a request is answered by its own tenth step. |
| ScoreboardAnswers.GenerationIsLastRead | backend/src/alpha/routes_participant.py:533-568 | The generation a request compares with is the counter's value at the last of its reads. |
| ScoreboardAnswers.LeaseIsTakenExactly | backend/src/alpha/routes_participant.py:538-557 | A request becomes the builder exactly when no lease is running, and holds a new one for 45 seconds. |
| ScoreboardAnswers.LeaseIsGivenBack | backend/src/alpha/routes_participant.py:585-589 | The builder's last step gives its own lease back and no other. |
| ScoreboardAnswers.RaisingBuilderGivesBack | backend/src/alpha/routes_participant.py:578-589 | A builder one of whose calls raises releases its lease before its answer. |
| ScoreboardAnswers.PublishedIsFound | backend/src/alpha/routes_participant.py:569-573 | A published board is found by every request of its phase that goes by the same generation and looks while the board lasts. |
| ScoreboardCache.InvalidateScoreboard | backend/src/alpha/routes_admin.py:139-148 | The writer's increment and deletes, carried out on the in-memory store with any of them failing, end in the store and commits of the protocol's steps. |
| ScoreboardCache.InvalidationCompletes | backend/src/alpha/routes_admin.py:139-148 | Unless the increment is lost the commit counts as completed for every later read of the counter, whichever deletes have failed; those that have not leave no board behind. |
| ScoreboardContents.ServedBoardIsPublic | backend/src/alpha/routes_participant.py:520-579 | When every commit had completed by the reader's last look at the counter and builder and reader began with the present event row, the board handed out, cached or fresh, has the entries and the total of the public scoreboard of the present database at the instant the reader asked. |
| ScoreboardContents.QuietBoardIsPublic | backend/src/alpha/routes_participant.py:520-579 | The rows are the present ones when the counter has not moved between the two arrivals and the reader's last look. |
| EphemeralStore.MemoryStore.CheckRate | backend/src/alpha/store.py:51-61 | The method on the dictionaries is one hit of the fixed window and touches no other key. |
| EphemeralStore.MemoryStore.GetJson | backend/src/alpha/store.py:63-73 | A value is returned exactly while it has not expired, and an expired one is dropped. |
| EphemeralStore.MemoryStore.SetJson | backend/src/alpha/store.py:75-79 | A positive time to live stores the value; any other does nothing. |
| EphemeralStore.MemoryStore.Delete | backend/src/alpha/store.py:81-83 | The key is gone and nothing else has changed. |
| EphemeralStore.MemoryStore.Increment | backend/src/alpha/store.py:89-93 | The counter of this key goes up by one and is the answer. |
| EphemeralStore.MemoryStore.AcquireLease | backend/src/alpha/store.py:95-105 | A lease is granted exactly when none is running, with the new token. |
| EphemeralStore.MemoryStore.ReleaseLease | backend/src/alpha/store.py:107-113 | A lease is given back only by the token that holds it. |
| EphemeralStore.ObjectsLast | backend/src/alpha/store.py:63-83 | A stored object is answered until its positive time to live has passed and not afterwards, a deleted one never, and no other key is touched. |
| EphemeralStore.LeaseReturns | backend/src/alpha/store.py:107-113 | A lease is given back exactly when it is there under this token, and no other is touched. |
| EphemeralStore.FirstRequestsAllowed | backend/src/alpha/store.py:51-61 | On any trace of requests a window allows exactly its first `limit` requests, and a request made `retry_after` or more after a denial belongs to another window; the delay exceeds what is left of the window by a second at most. |
| EphemeralStore.AtMostTwiceTheLimit | backend/src/alpha/store.py:51-61 | No half-open interval of the window's length contains more than twice the limit of allowed requests. |
| EphemeralStore.RateKeysAreSeparate | backend/src/alpha/store.py:51-61 | Charging one key leaves every other window, all counters and all leases alone. |
| SubmissionRate.CheckSubmissionRate | backend/src/alpha/routes_participant.py:207-239 | Submission is denied exactly when one of the three windows alone would deny it; the first such window answers, those up to it are charged once and those after it not at all. The team-change check is the same loop over two windows. |
| SubmissionRate.OneMoreCharged | backend/src/alpha/routes_participant.py:226-235 | One more round of the loop charges one more window and leaves the others. |
| Scoring.PointsNonIncreasing | backend/src/alpha/services.py:294-304 | Fixed or dynamic, more solves never raise a score. |
| Scoring.DynamicRange | backend/src/alpha/services.py:294-298 | The dynamic score lies between minimum and initial, is initial at no solves and minimum from `decay` solves on. |
| Scoring.DynamicCurve | backend/src/alpha/services.py:294-298 | From the first solve to the decay-th the score is the whole number nearest to initial - (initial - minimum) * n^2 / decay^2, the even one of two equally near, and no other number is. |
| Scoring.PointsAreFair | backend/src/alpha/services.py:301-304 | Every price follows from the scoring columns alone: initial when fixed, else the point of the curve, and minimum beyond it. |
| Scoring.SqlAgreesWithPython | backend/src/alpha/services.py:393-409 | For every count of at least one the CASE expression equals the Python function under the same tie rule; under half-away rounding it is off by at most one, and off exactly on a tie over an even number that the minimum does not hide. |
| Scoring.SqlTieDiffers | backend/src/alpha/services.py:393-405 | The off-by-one under half-away rounding is real. |
| Scoreboard.StagedIsDirect | backend/src/alpha/services.py:383-452 | The staged query (counts per challenge, sums per team of solves and of awards, UNION ALL, regrouping) lists each team with a visible solve or award once and no other, with the direct sum over its rows. |
| Scoreboard.BoardIsSumOfPoints | backend/src/alpha/services.py:383-452 | Read straight from the tables: each listed team has the sum of challenge_points over its solves, priced by the solves the board knows, plus its active awards stamped in time. |
| PublicBoard.FullBoard | backend/src/alpha/services.py:377-478 | While the board is not frozen, and once the event is over, it lists exactly the teams with a solve or active award, under their own name or their creator's, each with the direct sum over all of them whatever their stamps. |
| PublicBoard.FrozenBoardShows | backend/src/alpha/services.py:377-478 | While it is frozen, exactly those with one stamped at freeze_at or before, each with the sum over those, priced by their number. |
| PublicBoard.EndingReveals | backend/src/alpha/services.py:377-441 | Over all runs the edit that ends the event brings the hidden rows onto the board: a team with a solve stamped after the freeze is listed with all its solves, more than the frozen board showed. |
| Scoreboard.CountsListOnce | backend/src/alpha/services.py:383-391 | The grouped counts list each challenge with a visible solve once and no other, with the number of its visible solves. |
| Scoreboard.PointsAreConserved | backend/src/alpha/services.py:383-452 | Summed over all teams the scores are, read straight from the tables, solves known times points over the challenges each taken once, plus the awards known. |
| Scoreboard.RankingIsTotal | backend/src/alpha/services.py:454-477 | With names that differ under lower() the sort keys are a strict total order. |
| Scoreboard.RankingIsDetermined | backend/src/alpha/services.py:454-478 | There is exactly one ranked list of the first 1,000 entries. |
| Scoreboard.BoardReadsDown | backend/src/alpha/services.py:471-477 | Down the list scores never rise, ties go by solves and then by the earlier last solve, then names in alphabetical order, and nobody left off the first 1,000 has a higher score than anybody on it. |
| FrozenBoard.BoardIsDetermined | backend/src/alpha/services.py:377-478 | In every state any run reaches, team mode or individual mode, the public board is one determined list. |
| FrozenBoard.StepKeepsFrozenBoard | backend/src/alpha/services.py:127-163 | One step of any handler leaves a frozen board's entries and its freeze instant as they are, unless the event ends, a solve stamped by freeze_at commits late, or an edit was checked before the freeze. |
| FrozenBoard.FrozenBoardStands | backend/src/alpha/services.py:111-163 | The same over whole runs: the board that froze is the board shown until the event ends. |
| FrozenBoard.SubmissionKeepsBoardExactly | backend/src/alpha/services.py:377-441 | A submission leaves a frozen board as it is if and only if it is refused or wrong or its solve is stamped after freeze_at; a punctual one shows however late it commits. |
| ConcreteRun.LateSolveHappens | backend/src/alpha/routes_participant.py:410-475 | A run from bootstrap shows it: a solve stamped before freeze_at commits after it and changes the frozen board. |
| FrozenBoard.RosterChangesInWindow | backend/src/alpha/services.py:82-90 | Teams, memberships and the set of accounts change only in the registration state, from registration_at on and before end_at, whatever the command. |
| Services.SubmissionWindow | backend/src/alpha/services.py:82-101 | No two instants open submission and registration under one event row. |
| Services.LockedExactly | backend/src/alpha/services.py:127-143 | Freeze instant and scoring are locked exactly while the board is frozen or final. |
| Services.SamePhaseSameCutoff | backend/src/alpha/services.py:140-143 | Boards cached under one phase of an event apply the same cutoff. |
| FrozenBoard.LateRowsHidden | backend/src/alpha/services.py:389-441 | A solve and score stamped after the cutoff change nothing on the board. |
| FrozenBoard.FreezeHoldsExactly | backend/src/alpha/services.py:146-152 | update_event checks the freeze when it runs and commits later: no accepted edit moves or lifts a freeze that has been reached if and only if the board was already frozen when the check was made. |
| FrozenBoard.ScoringHoldsExactly | backend/src/alpha/services.py:155-163 | Likewise no accepted challenge edit changes the scoring behind a frozen board if and only if the board was already frozen at its check. |
| FrozenBoard.StraddlingEditThaws | backend/src/alpha/routes_admin.py:160-183 | A concrete edit checked at 9 and committed at 11 lifts a freeze set for 10. |
| FrozenBoard.RunAdvancesState | backend/src/alpha/services.py:111-119 | The state of the event never moves backwards. |
| FrozenBoard.RunKeepsBoard | backend/src/alpha/routes_admin.py:158-203 | Over all runs: a frozen event has a freeze instant that has come, its times stay ordered, and personal teams have different creators, beside the invariants of teams, submissions and prerequisites. |
| PrerequisiteGraph.Search.ReachesTarget | backend/src/alpha/services.py:357-363 | The depth-first search with its shared `seen` set terminates; true means the target is reachable, false that the node has been left behind with everything it leads to. |
| PrerequisiteGraph.LoadPrerequisitesFor | backend/src/alpha/services.py:324-368 | The errors come in their order, and a cycle is reported exactly when some proposed prerequisite reaches the challenge. |
| PrerequisiteGraph.EditClosesCycle | backend/src/alpha/services.py:347-366 | Replacing a challenge's prerequisites leaves the graph acyclic exactly when none of the new ones reaches it. |
| PrerequisiteGraph.LoadIsExact | backend/src/alpha/services.py:324-368 | load_prerequisites accepts or reports a cycle exactly as the edited graph is acyclic or not. |
| PrerequisiteGraph.CreateKeepsAcyclic | backend/src/alpha/routes_admin.py:338-384 | A new challenge cannot close a cycle. |
| PrerequisiteGraph.DeleteKeepsAcyclic | backend/src/alpha/routes_admin.py:440-469 | Deleting a challenge with its links keeps the rest closed and acyclic. |
| PrerequisiteGraph.AcyclicIffSolvable | backend/src/alpha/routes_participant.py:46-56 | A closed graph is acyclic exactly when its challenges can be worked through one after another. |
| ChallengeAccess.PrerequisitesAlwaysAcyclic | backend/src/alpha/routes_admin.py:338-469 | In every state reached by any run of creations, updates, imports and deletions the prerequisites are acyclic and refer to challenges that exist, and no two challenges share a slug. |
| ChallengeAccess.NothingIsLockedOut | backend/src/alpha/routes_participant.py:46-56 | With everything visible there is an order in which one team meets every challenge accessible at its turn. |
| ChallengeAccess.SolvesFollowPrerequisites | backend/src/alpha/routes_participant.py:317-336 | As long as nobody rewrites prerequisites, over all runs a team solves a challenge only after all its prerequisites. |
| ChallengeAccess.UpdateKeepsGraph | backend/src/alpha/cli.py:224-299 | A re-import or update keeps the graph acyclic. |
| AdminOutcomes.CreateChallengeOutcome | backend/src/alpha/routes_admin.py:338-384 | Refusals in their order, prerequisites named twice or unknown among them; else the challenge is there under a new id and the others stay. |
| AdminOutcomes.UpdateChallengeOutcome | backend/src/alpha/routes_admin.py:389-435 | Refusals in their order; an accepted edit gives the challenge the columns it names and leaves its other columns and all other challenges alone. |
| AdminOutcomes.DeleteChallengeOutcome | backend/src/alpha/routes_admin.py:440-469 | A challenge without submissions goes, and with it only its place among the prerequisites of others. |
| AdminOutcomes.SetVisibilityOutcome | backend/src/alpha/routes_admin.py:473-495 | That column of that challenge changes. |
| AdminOutcomes.HiddenTakesNothing | backend/src/alpha/routes_participant.py:46-56 | Over every run that does not show it again, a hidden challenge takes no submission. |
| AdminOutcomes.UpdateEventOutcome | backend/src/alpha/routes_admin.py:158-203 | Refusals in their order; an accepted edit sets what it names, and freeze_at to now at the latest when it freezes the event. |
| AdminOutcomes.TimesAlwaysInOrder | backend/src/alpha/routes_admin.py:183-194 | In every reachable state registration, start, freeze and end are in order. |
| SubmissionProtocol.AwardSequence | backend/src/alpha/routes_participant.py:386-448 | In every interleaving the k-th committed solve of a challenge carries the points of a k-th solve, on the curve of the scoring its transaction locked, and equal scoring never pays a later solve more. |
| SubmissionProtocol.NthSolveExists | backend/src/alpha/routes_participant.py:442-448 | There is exactly one k-th solve for every k up to the number of solves: no gap and no repeat. |
| SubmissionProtocol.CommitUsesCurrentScoring | backend/src/alpha/routes_participant.py:386-448 | What is committed is scored with the challenge's columns as they stand at the commit. |
| SubmissionProtocol.CapsHold | backend/src/alpha/routes_participant.py:306-374 | Under concurrent submissions by team mates the caps of 1,000 and 10,000 hold, no key is stored twice and no challenge solved twice. |
| SubmissionProtocol.NoIntegrityError | backend/src/alpha/routes_participant.py:418-493 | The locks leave the unique constraints nothing to catch, and team mates wait until the transaction ends. |
| SubmissionProtocol.SoloSubmission | backend/src/alpha/routes_participant.py:282-475 | With nobody else about, a submission's statements commit its row if and only if its key is new, its challenge there and unsolved and both limits have room; the row is right exactly when the flag matched, with the points of the next solve. |
| SubmissionProtocol.FirstSolve | backend/src/alpha/routes_participant.py:376-448 | Once a challenge has been set up, the first right flag earns the points of a first solve. |
| SubmissionInvariants.SubmissionsAlwaysConsistent | backend/src/alpha/routes_participant.py:410-460 | Over all runs of all handlers correct submissions, solves and score events correspond one to one with equal points, wrong ones earn nothing, a team solves a challenge once, keys and caps hold, and authors stay on the team they submitted for. |
| SubmissionInvariants.AcceptedExactly | backend/src/alpha/routes_participant.py:250-475 | Rows are written if and only if every gate is open: the event's window at the stamp and at the commit, a session that has not expired of an active account of its generation, team, flag length, a new key, a visible, unlocked and unsolved challenge, fewer tries than max_attempts and than 1,000, and fewer than 10,000 in the event. |
| SubmissionOutcomes.LimitsAlwaysHold | backend/src/alpha/routes_participant.py:339-374 | Over every run that does not lower it, no team has more submissions on a challenge than its max_attempts, if it has one, nor more than 1,000. |
| SubmissionOutcomes.LimitRefuses | backend/src/alpha/routes_participant.py:339-374 | With every other gate open, the next try after max_attempts is refused with attempt_limit_reached, and one after 1,000 or 10,000 with storage_limit_reached; nothing is written. |
| SubmissionOutcomes.AcceptedRows | backend/src/alpha/routes_participant.py:376-497 | An accepted flag is right exactly when it is the text or matches both times; the new submission, solve and score name its team, author, challenge and instants, and a right one earns the fair price of the next solve. |
| SubmissionOutcomes.EarlyGateAnswers | backend/src/alpha/routes_participant.py:250-272 | Window, team and flag length refuse in this order before the idempotency key is looked up, and a stored key is answered with a verdict. |
| SubmissionOutcomes.LateGateAnswers | backend/src/alpha/routes_participant.py:273-336 | After it rate windows, session and challenge refuse in this order, a challenge the team may not see as one that does not exist, and a solved one is told so. |
| SubmissionInvariants.AccessibleExactly | backend/src/alpha/routes_participant.py:46-56 | Accessible means visible at that instant with every prerequisite solved by the team. |
| SubmissionInvariants.SolvedAtIsTheSolve | backend/src/alpha/routes_participant.py:327-336 | A team that submits a solved challenge again is told the instant of its one solve. |
| SubmissionInvariants.RunKeepsLog | backend/src/alpha/routes_participant.py:410-460 | The same correspondence, caps and uniqueness are kept by every run from any state that has them. |
| SubmissionInvariants.HandleKeepsLog | backend/src/alpha/models.py:231-285 | Apart from an accepted submission no handler adds, changes or removes a submission, solve or score; the cascades of disbanding a team and deleting a challenge find nothing. |
| SubmissionInvariants.StepAppends | backend/src/alpha/routes_participant.py:410-497 | A step appends at most one submission and answers it with that row's verdict. |
| SubmissionInvariants.ResultIsStable | backend/src/alpha/routes_participant.py:195-204 | What a stored submission is answered with stays the same however the log grows. |
| SubmissionInvariants.ReplayIsHarmless | backend/src/alpha/routes_participant.py:263-316 | Replaying a stored key of the team after any later steps, whatever the flag, changes nothing and answers with the original verdict; it is refused exactly when submissions are closed or the flag is too long. |
| Soundness.RevokedReplayIsAnswered | backend/src/alpha/routes_participant.py:263-297 | A request authenticated before a suspension writes nothing, but its replay of a stored key of the team is still answered with the stored verdict, exactly while submissions are open and the flag is not too long. |
| ConcreteRun.RevokedReplayHappens | backend/src/alpha/routes_participant.py:263-297 | A run from bootstrap shows it: a suspended participant's second request is answered with the stored verdict. |
| SubmissionRefinement.CommitIsAccepted | backend/src/alpha/routes_participant.py:306-448 | What the locks have established about an interleaved transaction at its commit makes the single transaction accept the same submission. |
| SubmissionRefinement.CommitIsSubmitFlag | backend/src/alpha/routes_participant.py:376-475 | In any interleaving a committing transaction appends exactly the row, with exactly the points, that the whole submission as one transaction appends in the state of that commit. |
| SubmissionRefinement.RunIsSerial | backend/src/alpha/routes_participant.py:243-511 | A whole interleaved run ends in the rows of submit_flag taken as single transactions, one for each commit, in the order of the commits, with other handlers in between. |
| SubmissionRefinement.EveryRunIsSerial | backend/src/alpha/routes_participant.py:243-511 | Every run of the protocol has such a sequence of transactions. |
| LockOrder.HandlersIncrease | backend/src/alpha/routes_teams.py:67-96 | Whichever rows are missing (the membership of a user who joins, or of an account without a team), every handler asks for the others in strictly increasing rank: Event, User by id, Membership by user, Team, Challenge. |
| LockOrder.ReachableExclusion | backend/src/alpha/routes_teams.py:293-309 | Exclusive row locks exclude in every reachable state. |
| LockOrder.NoWaitCycle | backend/src/alpha/routes_participant.py:246-307 | No number of concurrent submissions, team changes, edits and suspensions ever waits in a circle, whichever of their rows exist. |
| LockOrder.SomebodyCanGoOn | backend/src/alpha/routes_admin.py:690-695 | Some unfinished transaction can always proceed. |
| SubmissionRefinement.LocksFollowScript | backend/src/alpha/routes_participant.py:282-397 | A submission takes its row locks in the order of its lock script and gives none back before its end. |
| SubmissionRefinement.LockTeamWaits | backend/src/alpha/routes_participant.py:285-307 | It goes past its User, Membership and Team locks exactly when no other submission holds a lock in conflict with one of them. |
| SubmissionRefinement.LockChallengeWaits | backend/src/alpha/routes_participant.py:386-397 | A matched flag goes past its Challenge lock exactly when no other submission holds it. |
| TeamInvariants.TeamsAlwaysWellFormed | backend/src/alpha/routes_teams.py:194-447 | Over all runs every team has exactly one owner and 1 to 100 members, members are on teams that exist, team names, invites and accounts are unique, participants stay within the cap, and nobody makes more than 100 counted team changes. |
| TeamInvariants.RunKeepsTeams | backend/src/alpha/routes_teams.py:99-117 | From any state that has these properties every run keeps them. |
| TeamInvariants.ReplacingRetires | backend/src/alpha/routes_teams.py:265-290 | A successful rotation or removal leaves no team answering to the previous invite. |
| TeamInvariants.ReplacedInviteNeverAdmits | backend/src/alpha/routes_teams.py:363-405 | Over every later run the replaced invite admits nobody, the removed member included, and a join with it changes nothing. |
| TeamInvariants.HandOver | backend/src/alpha/routes_teams.py:345-346 | Handing a team over keeps exactly one owner and moves nobody. |
| TeamInvariants.Disband | backend/src/alpha/routes_teams.py:438-440 | Only a team without other members disappears, with its last membership. |
| TeamInvariants.HandleKeepsTeams | backend/src/alpha/routes_auth.py:304-315 | Every handler, the personal team of individual mode included, keeps the shape of teams. |
| TeamOutcomes.EntryExactly | backend/src/alpha/routes_teams.py:99-139 | Who may change teams at all, and the refusals in their order, down to the count of 100 changes. |
| TeamOutcomes.CreateTeamOutcome | backend/src/alpha/routes_teams.py:195-222 | A user without a team founds one of an unused name, with a new id and invite, and owns it. |
| TeamOutcomes.JoinTeamOutcome | backend/src/alpha/routes_teams.py:226-261 | A user without a team becomes a member of the team with this invite while it has fewer than 100. |
| TeamOutcomes.RotateInviteOutcome | backend/src/alpha/routes_teams.py:265-290 | The owner's team answers to a new invite, and nothing else about it changes. |
| TeamOutcomes.TransferOwnerOutcome | backend/src/alpha/routes_teams.py:330-360 | An active participant of the owner's team becomes the owner and the owner a member; nobody else's membership changes. |
| TeamOutcomes.RemoveMemberOutcome | backend/src/alpha/routes_teams.py:364-405 | A member without submissions is off the team, which answers to a new invite; nobody else moves. |
| TeamOutcomes.LeaveTeamOutcome | backend/src/alpha/routes_teams.py:409-447 | Whoever leaves is off the team; an owner may only when alone, and takes the team along; members and teams with submissions stay. |
| Credentials.RevocationIsForEver | backend/src/alpha/dependencies.py:42-49 | Over all runs: after a suspension, a password change or the recovery command no session made before is accepted at any later step, not even after reactivation, and no request authenticated before commits a team change or a submission. |
| Credentials.RevocationEndsSessions | backend/src/alpha/routes_admin.py:714-724 | The session half of it, from any state. |
| Credentials.RevocationStopsRequests | backend/src/alpha/routes_participant.py:282-300 | The in-flight half of it: what remains of such a request writes nothing. |
| Credentials.DeadIsPowerless | backend/src/alpha/routes_teams.py:120-126 | A request of an earlier generation fails the re-check under the User lock in all six team changes and in submission. |
| Credentials.SignInNeedsCurrentPassword | backend/src/alpha/routes_auth.py:357-383 | However often login goes round, it signs in only with the password of the locked account at that moment, and with a new session that is accepted. |
| Credentials.ChangeNeedsCurrentPassword | backend/src/alpha/routes_auth.py:448-475 | Changing the password takes the present password and a session still accepted. |
| Credentials.PasswordChangeTakesEffect | backend/src/alpha/routes_auth.py:477-491 | A change leaves the replacement, the next generation and exactly one session, and touches no other account. |
| Credentials.LogoutIsForEver | backend/src/alpha/routes_auth.py:386-404 | A session that was logged out is never accepted again. |
| SessionLifetimes.SignedInExactly | backend/src/alpha/dependencies.py:31-49 | Authentication succeeds exactly with a session that is there, has not expired and is of the present generation of an active account; it and the first step of a password change otherwise answer invalid_session and change nothing. |
| SessionLifetimes.ExpiryIsForEver | backend/src/alpha/dependencies.py:42-49 | Over all timely runs, once the clock has reached a session's expiry every later step refuses it, and a request that came with it before writes no submission and changes no password. |
| SessionLifetimes.SessionsLastTheirTime | backend/src/alpha/routes_auth.py:172-199 | In every reachable state a session is accepted exactly until the configured time after it was opened, while its account is active and has not moved on. |
| Credentials.SessionsAlwaysCapped | backend/src/alpha/routes_auth.py:172-199 | Over all runs nobody holds more than ten active sessions. |
| Credentials.AddSessionCaps | backend/src/alpha/routes_auth.py:176-190 | Making room for a session leaves the user ten active ones at most. |
| Credentials.AddSessionKeepsNewest | backend/src/alpha/routes_auth.py:176-190 | A session it drops is older than nine of the user's, and than every one that stays. |
| Credentials.AddSessionSpares | backend/src/alpha/routes_auth.py:176-190 | It drops no session of another user, and none of the user's own while there are nine or fewer. |
| AccountOutcomes.LoginBeginOutcome | backend/src/alpha/routes_auth.py:334-354 | Email and password of an active account start the three rounds of login; anything else is refused alike. |
| AccountOutcomes.LoginAttemptOutcome | backend/src/alpha/routes_auth.py:357-383 | A round signs in while the verified hash is the account's, goes again while the password still verifies, and is refused otherwise; signing in changes nothing of the account but the salt. |
| AccountOutcomes.PasswordBeginOutcome | backend/src/alpha/routes_auth.py:424-446 | Rate windows, session and present password refuse in this order. |
| AccountOutcomes.PasswordAttemptOutcome | backend/src/alpha/routes_auth.py:448-475 | The same rounds under the account's and the session's locks. |
| AccountOutcomes.SetPasswordOutcome | backend/src/alpha/cli.py:198-221 | The account of the email gets the password, must change it, is one generation on and without sessions; no other account or session is touched. |
| AccountOutcomes.LogoutOutcome | backend/src/alpha/routes_auth.py:386-404 | This session ends and no other. |
| AccountOutcomes.UserStatusOutcome | backend/src/alpha/routes_admin.py:681-724 | Only participants; a suspension ends all their sessions and moves an active account on, a reactivation lets it back in, and nobody else is touched. |
| RegistrationCodes.UsesAreAdmissions | backend/src/alpha/routes_auth.py:202-235 | Over all interleavings of two-phase registrations, revocations, mode changes and time a code's use count is the number of accounts committed through it, at most its maximum, and the participants are exactly the admitted users. |
| RegistrationCodes.RegistrationIsAllOrNothing | backend/src/alpha/routes_auth.py:266-327 | A refused registration changes nothing; an accepted one leaves account, accepted session, admission and, in individual mode, team together, through a code usable at that moment just when the event demands one. |
| AccountOutcomes.RegisterBeginOutcome | backend/src/alpha/routes_auth.py:250-277 | Window, code, uniqueness and capacity refuse in this order at the first look, which otherwise only remembers what was asked for. |
| AccountOutcomes.RegisterFinishOutcome | backend/src/alpha/routes_auth.py:279-327 | And again at the second, which otherwise opens exactly the account asked for, uses the code once more and no other, and founds the personal team in an individual event. |
| RegistrationCodes.SpentCodeAdmitsNobody | backend/src/alpha/routes_auth.py:224-235 | A code that is revoked, expired or used up stays so and admits nobody at any later step. |
| RegistrationCodes.RunKeepsReg | backend/src/alpha/routes_auth.py:306-321 | From any state with true use counts every run keeps them true. |
| RegistrationCodes.NewCodeAdmits | backend/src/alpha/routes_admin.py:232-279 | A new code is a new key, has admitted nobody and is usable unless its own bounds say otherwise. |
| AdminOutcomes.CreateCodeOutcome | backend/src/alpha/routes_admin.py:232-279 | An active unused code with the bounds asked for; the others stay. |
| AdminOutcomes.RevokeCodeOutcome | backend/src/alpha/routes_admin.py:283-319 | The code is inactive from the instant it was first revoked; the others stay. |
| AdminOutcomes.RevokedCodeAdmitsNobody | backend/src/alpha/routes_admin.py:283-319 | Over every later run a revoked code admits nobody. |
| WriteSets.HandleWrites | backend/src/alpha/routes_admin.py:158-203 | Each transaction touches the tables named for it and no other. |
| WriteSets.HandleAges | backend/src/alpha/routes_admin.py:681-724 | Only registration adds an account; no handler removes or renames one, changes a role or lowers a generation. |
| Soundness.HandleKeepsSound | backend/src/alpha/routes_admin.py:158-724 | Every handler keeps, together, the invariants of teams, submissions, prerequisites, board, codes and credentials and the cap on sessions. |
| Soundness.AlwaysSound | backend/src/alpha/cli.py:86-144 | They hold in every state that any timely run reaches from bootstrap. |
| Backend.Server.constructor | backend/src/alpha/cli.py:86-144 | A bootstrapped server starts with the whole invariant. |
| Backend.Server.Serve | backend/src/alpha/routes_participant.py:243-511 | Command by command, by its methods, a server with the invariant ends in the state of the run with the answers of its transactions, and keeps the invariant throughout. |
| Backend.Server.Perform | backend/src/alpha/routes_auth.py:355-378 | One command and the end of its request, unless a credential loop goes round again, is one step of the run. |
| Backend.Server.Authenticate | backend/src/alpha/dependencies.py:31-49 | The session check, with the rate verdict of a team change before it, remembers user, generation and token. |
| Backend.Server.CreateTeam | backend/src/alpha/routes_teams.py:195-222 | Row by row the handler ends in the state and answer of its transaction. |
| Backend.Server.JoinTeam | backend/src/alpha/routes_teams.py:226-261 | The same for joining by invite. |
| Backend.Server.RotateInvite | backend/src/alpha/routes_teams.py:265-290 | The same for rotating the invite. |
| Backend.Server.TransferOwner | backend/src/alpha/routes_teams.py:330-360 | The same for handing over, role by role. |
| Backend.Server.RemoveMember | backend/src/alpha/routes_teams.py:364-405 | The same for removing a member and replacing the invite. |
| Backend.Server.LeaveTeam | backend/src/alpha/routes_teams.py:409-447 | The same for leaving, with the cascade of a disbanded team. |
| Backend.Server.StoreSolve | backend/src/alpha/routes_participant.py:422-448 | The score starts at 0 and gets the points of the count that includes the new solve. |
| Backend.Server.StoreUnlessClosed | backend/src/alpha/routes_participant.py:410-475 | Rows stored before the last gate are gone again when submissions have closed. |
| Backend.Server.SubmitFlag | backend/src/alpha/routes_participant.py:243-511 | The whole submission, with rows stored before the last gate and rolled back when it has closed, is one transaction. |
| Backend.Server.RegisterBegin | backend/src/alpha/routes_auth.py:250-277 | The first phase of registration, after its rate verdict, remembers the request and writes no table. |
| Backend.Server.LoginBegin | backend/src/alpha/routes_auth.py:334-354 | login before its loop: the password is verified against the hash as read, behind the rate verdict. |
| Backend.Server.PasswordBegin | backend/src/alpha/routes_auth.py:424-446 | change_password before its loop, with the rate verdict before and the one after the session check. |
| Backend.Server.SetPassword | backend/src/alpha/cli.py:198-221 | The recovery command: new hash, next generation, change required, no session left. |
| Backend.Server.Logout | backend/src/alpha/routes_auth.py:386-404 | Logout removes the session of the token. |
| Backend.Server.RegisterFinish | backend/src/alpha/routes_auth.py:279-327 | The second phase of registration is one transaction. |
| Backend.Server.LoginAttempt | backend/src/alpha/routes_auth.py:357-378 | One round of login's loop. |
| Backend.Server.PasswordAttempt | backend/src/alpha/routes_auth.py:447-489 | One round of change_password's loop. |
| Backend.Server.UpdateEvent | backend/src/alpha/routes_admin.py:158-203 | Fields set one by one and rolled back on disordered times are one transaction. |
| Backend.Server.CreateChallenge | backend/src/alpha/routes_admin.py:338-384 | Creation with the prerequisite search. |
| Backend.Server.UpdateChallenge | backend/src/alpha/routes_admin.py:389-435 | Update with scoring lock, flag, prerequisite search and slug. |
| Backend.Server.SetVisibility | backend/src/alpha/routes_admin.py:473-495 | Showing and hiding. |
| Backend.Server.CreateCode | backend/src/alpha/routes_admin.py:232-279 | Creating a registration code. |
| Backend.Server.DeleteChallenge | backend/src/alpha/routes_admin.py:440-469 | Deletion with its cascades. |
| Backend.Server.UpdateUserStatus | backend/src/alpha/routes_admin.py:681-724 | Suspension and reactivation. |
| Backend.Server.RevokeCode | backend/src/alpha/routes_admin.py:283-319 | Revocation keeps the first revocation instant. |
| SubmissionPaging.AnswerIsDetermined | backend/src/alpha/routes_admin.py:499-537 | Every request with a valid cursor, filtered, offset and limited, has exactly one answer; without an offset it is the page of the selected rows below the cursor. |
| SubmissionPaging.AnswerIsSlice | backend/src/alpha/routes_admin.py:511-537 | The answer is a slice of the one descending list of the rows that pass both filters and the cursor: offset rows in, limit rows long. |
| SubmissionPaging.AppendUniqueSubmissions | frontend/src/lib/adminSubmissions.ts:14-27 | The filter with its mutable set computes the merge. |
| SubmissionPaging.AppendUniqueMerges | frontend/src/lib/adminSubmissions.ts:14-27 | Merging keeps the list, adds exactly the new ids and never an id twice. |
| SubmissionPaging.LoadedCovers | frontend/src/lib/adminSubmissions.ts:9-27 | Whatever is inserted between pages, the list is descending and misses no row of the start above its cursor. |
| SubmissionPaging.LoadedPartition | backend/src/alpha/routes_admin.py:522-537 | With inserts above the cursor only, the list and what is left below the cursor are exactly the rows of the start. |
| SubmissionPaging.PagingIsComplete | backend/src/alpha/routes_admin.py:522-537 | Paging ends after boundedly many pages and has then every row of the start exactly once, in descending order. |
| Csv.SerializeRoundTrip | frontend/src/lib/csv.ts:7-15 | A reader following section 2 of RFC 4180 recovers the neutralized grid. |
| Csv.RoundTripExactly | frontend/src/lib/csv.ts:13-15 | It does so if and only if there are rows and none is empty. |
| Csv.NoFormulaSurvives | frontend/src/lib/csv.ts:1-10 | No recovered cell triggers a formula, and a cell that did not before is unchanged. |
| Csv.NeutralizedExactly | frontend/src/lib/csv.ts:1-10 | A cell gets an apostrophe in front exactly when it begins with a tab, CR or LF, or with =, +, - or @ after nothing but characters up to the blank. |

## Left out

- Administrators' authentication: the commands of `AdminRoutes` are taken as issued by an administrator; `require_admin` guards a role that no modelled handler grants.
- HTTP, cookies, CSRF tokens, CORS, request validation and response shapes: framework plumbing; values that validation refuses (scoring out of range, codes with fewer than one use) do not reach the model.
- Announcements, outbox and audit listings, administrative inventories and the challenge listing with its counts: reads without deep state. Of the audit only the rows about teams are kept, which the lifetime limit counts.
- Schema migrations, bootstrap and demo seeding beyond the state they leave (`Contest.Bootstrapped`), the YAML parsing of import-challenge, which acts as a creation or an update.
- A second event: bootstrap creates one event row and nothing creates another, so the model holds one.
- Redis internals and its integer TTL: `RedisStore` is taken to keep the contract of `MemoryStore`; lost data and `close()` are out.
- Floating-point rounding in the scores.
- Deletion of expired session rows with SKIP LOCKED, the row locks on sessions and on coalesced audit and outbox rows, and the foreign keys' key-share locks are not in LockOrder.
- Explicit null values in an event or challenge patch: the database refuses them where the column does not allow them.
- team_membership_changed and submission_conflict: submission needs a live or frozen event, team changes need a registering one, and both hold the Event row, so the first cannot occur; SubmissionProtocol.NoIntegrityError shows that the second does not.
- Backend.Server: the SQL counts and lookups are set and sequence functions on the tables, not loops; the second lookup of the idempotency key under the locks, which in one transaction repeats the first, appears in SubmissionProtocol only. Login's and change_password's loops are methods of one round each, because other transactions run between rounds.
- Rate windows in the transactions: their verdicts are parameters; SubmissionRate has the charging itself. The 503 of a failing rate store changes no table and is not an answer of the model.
- Sessions of one created_at are ordered by token, which stands for the row's random id.
- FrozenBoard.StepKeepsFrozenBoard: awards are part of the aggregate, but no handler creates one, so in reachable states there are none to protect; an award inserted by hand for a challenge without submissions would go with that challenge's deletion.
- Scoreboard.RankingIsDetermined: text is compared character by character on what lower() yields; locale collation is not modelled.
- ScoreboardCache.ServedBoardIsCoherent: a commit counts once its increment has succeeded; lost increments and the import command, which never increments, are steps of the model but carry no promise.
