# Verification of the civic record and its satellites

A Dafny model of the OurSay repository's record engine and of the protocols around it, with proofs about every run,
every input and every interleaving. `dafny verify dfyconfig.toml` checks all of it.

## What is modelled

- **The record engine** (`RecordTypes`, `RecordLog`, `RecordSpec`, `RecordShape`, `RecordRuns`, `ParentWalks`,
  `RootMoves`, `Record`, `Acceptance`, `SemanticHelpers`, `Singletons`, `Concurrency`, `Tallies`, `Governance`,
  `Permissions`, `Counterexamples`). The log is a sequence of envelopes with their hashes; heads, revisions and
  tallies are folds over it. A machine splits each write into its checks and its locked append, so other writes can
  come in between; joins, erasures and settlements are steps too. The class `RecordService` is the imperative service:
  its loops and guards are proved against functions of the tables. Roots and depths are walks over current heads, as
  in the code; on well-formed logs they are those fixed at creation.
- **The verifier and the walkers** (`VerifyChain`, `Walkers`): the chain walk, and the three bounded readers against
  the unbounded ones.
- **Regions** (`EffectiveDating`, `Regions`): the district table, its effective-dated lookups, and the compiler from
  region references to regions, against a set semantics.
- **Codecs** (`Numerals`, `Base59`, `UuidBase59`, `MentionTokens`, `FirstOccurrences`); `Counting` and `Iteration`
  hold shared arithmetic.
- **Account protocols** (`AccountTables`, `AccountRuns`, `KycSessions`, `Otp`): enrollment and recovery, KYC polls and
  webhooks, one-time codes, each as interleaved steps and, as classes, as whole calls.
- **Author resolution** (`IdentityRead`): the per-request memos over a frozen store.

Assumptions are named: `RecordTypes.CollisionFree` (no two envelopes share a leaf hash) and `VerifyChain.Binding` (the
content commitment fixes salt and content). Hashing, signatures, thread and credential bindings, content validation and
jurisdiction tables are uninterpreted: functions of an `Oracle` or fields of a `Gate`. Random ids are parameters, with
freshness where the source relies on it. Each SQL statement or transaction is one step, and the reads of one validation
see one snapshot.

## Where the code differs from its documentation or from a natural reading

- `appendSigned` never compares an edit's type with its entity's (`public-record/src/record.ts:325-359`), and treats a
  create with only one of parent type and parent id as parentless but stores the field
  (`public-record/src/record.ts:285-286`). An envelope that relies on neither gap is called `Faithful`. Every run
  keeps hash-linked histories whatever callers send (`EveryRunIsChained`); its log is well formed if and only if what
  it appended was faithful (`RunKeeps`). `EditCanChangeType` and `RootCanNameAParent` are concrete accepted calls.
- The missing type comparison lets one user hold two counted votes on one poll (`OneUserVotesTwice`), a vote be
  deleted as a comment (`VoteDeletedAsComment`) and a deleted poll gain a vote (`DeletedPollGainsAVote`), each a run
  from the empty store. The exact conditions are `OneSingletonPerUserExactly`, `TotalFallsExactly` and
  `FrozenExactly`. A vote declared a comment in time can also come back as any vote when votes may not change any more
  (`LateChangesExactly`, `OtherUpdatesIgnoreDeadlines`; the deleted poll is an input).
- It also moves roots: a vote declared a post becomes its own root (`VoteBecomesItsOwnRoot`). `RootMovesExactly` says
  when a row moves a root, `ThreadsKeptExactly` when a call breaks the rule of one root per persona.
- A bare parent id leads the projection's walk away from the root (`ProjectionLeavesTheRoot`, exactly when:
  `ProjectionExactly`).
- The per-revision reaction counts of a parent need not add up to its per-entity count: a reaction without a revision
  is left out (`ReactionWithoutRevision`), and an author of two reactions at two revisions is counted twice
  (`OneAuthorTwoRevisions`). `RevisionCountsAddUp` gives the exact difference; after runs that promote nothing there
  is none (`SignedRevisionCounts`).
- Together both gaps let two accepted calls make an entity its own ancestor, after which `resolveRoot` and
  `commentTree` never return (`TwoCallsMakeACircle`, `CommentTreeNeverEnds`). `WalksEndExactly` and `TreeEndsExactly`
  give the exact conditions; avoiding either gap is enough (`WalksEndWithoutEither`). In the model such a call answers
  `NeverReturns`.
- The nullifier dedupe check and the append are separate awaits, so two votes of one user can race (`RacingVotes`).
  Uniqueness holds over runs of whole calls; `RacingCreate` and, for each step of an interleaved run,
  `StepClashesExactly` give the exact condition when they are split. An attestation outlives the rejection of its
  call.
- Erasing a vote's content takes it out of its option's count, even after the poll is deleted, unless the same
  participant holds another vote for that option (`ErasureMovesExactly`, `ErasureBesideAnother`).
- `parentRevisionTxId` is never checked on the signed path, so no result depends on it. `prepareAppend` validates with
  the default jurisdiction and `appendSigned` with the thread's, so `PreparedEditPasses` leaves the op rules open.
- Doc comments in `public-record/src/governance.ts:40-62` and `public-record/README.md:61-63` call votes and
  signatures final by default; the code's last resort is to allow (`DefaultIsLoose`). The README's type table omits
  `result` and `platform_ops`, which `public-record/src/schema/types.ts` has; the model follows the schema.
- A platform edit takes over a row's author (`PlatformEditFreesTheAuthor`), who can then write a second singleton
  (`SecondWriteIsAccepted`), so per-author facts hold for other authors.
- `resolveThreadId` reads four rows and so cannot place a reaction on a comment at the deepest level
  (`FourStepsSuffice`).
- The effective-dated lookups agree only when a seat's latest date is unique; with a tie SQL leaves the choice open,
  and the model makes the two queries choose differently (`SeatLookupAgrees`).
- The webhook handler acts on the event's status and does not look at the status of the decision it fetches
  (`HookIgnoresDecisionStatus`, `UnapprovedAwardExactly`, in every run `AwardStepExactly`,
  and `AwardedThoughDeclined` as a run).
- `consume` on a one-time code is no compare-and-set, so overlapping verifications can both succeed (`SecondSuccess`,
  `RacingVerifications`, and `OneCodeSucceedsTwice` as a run).
- A reset does not stop an enrollment whose challenge was already consumed (`PendingEnrollmentOutlivesReset`,
  `PendingSurvivesExactly`), and removing a passkey leaves exactly the sessions opened between its two steps
  (`RemovalIsTwoSteps`, `RemovalEndsExactly`).
- The thread-override memo joins two ids with `::`; it is right because user ids are UUIDs (`ColonSplits`,
  `ColonsCollide`).

## Model

| member | source | states |
|---|---|---|
| RecordTypes.TablesExactly | public-record/src/schema/types.ts:219-257 | The type tables read from the other side: what may hang under each type of record, which types each op is for, and that the singletons are the attachments that are no comments. |
| RecordShape.HistoryShape | public-record/src/record.ts:288-359 | Every history in a well-formed log is one line: it starts with the only create, each later `prevHash` is the hash of the row before it, a delete can only be last, type, parent and pinned revision never change, and every author is the creator or the platform. |
| RecordShape.HistoryFacts | public-record/src/private/store.ts:522-548 | The folded head is the last row of the entity's history, and the history is exactly the entity's rows. |
| RecordLog.CurrentRevisionExactly | public-record/src/schema/postgres.sql.ts:368-376 | The current revision is the last create or update of the entity, whatever tombstones follow it, and there is none exactly if it has no such row. |
| RecordShape.Forest | public-record/src/record.ts:499-543 | The parent relation is a forest ordered by creation: a non-root entity's parent exists, has the recorded and allowed type, was created strictly earlier and shares its root; a root has no parent. |
| RecordShape.RootedAndShallow | public-record/src/record.ts:545-559 | Every entity has a root, of a root type, and comments nest at most COMMENT_MAX_DEPTH deep. |
| RecordShape.ForestIsImmutable | public-record/src/record.ts:545-559 | No continuation of a chained log moves an entity, its parent, or the root and the depth it was created with; a well-formed one does not change its type either. |
| RecordShape.WalkAgrees | public-record/src/record.ts:545-559 | On a well-formed log the walk over current heads ends, at the root the entity was created under. |
| RecordShape.ChainShape | public-record/src/record.ts:325-359 | In any chained log each history is one hash-linked line: only its first row is a create, only its last can be a delete, and parent, pinned revision and author are those of its create, the platform apart. |
| RecordShape.EveryRowIsPinned | public-record/src/record.ts:534-538 | In any chained log each row that names its parent in full is pinned to one of that parent's revisions, and no other row is pinned. |
| Governance.DefaultIsLoose | public-record/src/governance.ts:24-38 | With no rules on either side change and revocation are allowed; a refusal always goes back to an explicit `false` or a deadline. |
| Governance.ClosingIsFinal | public-record/src/governance.ts:35-38 | With rules fixed, time only withdraws permission to change or revoke. |
| Governance.EntityWins | public-record/src/governance.ts:24-32 | What the entity sets the jurisdiction cannot override; what it leaves out the jurisdiction decides. |
| Governance.GatesExactly | public-record/src/governance.ts:24-38 | A change or revocation is allowed if and only if neither the flag that counts refuses it nor the deadline that counts has passed, the entity's own or, where it has none, the jurisdiction's. |
| Permissions.GatesReadContent | public-record/src/governance.ts:46-74 | The gates read the flags and the deadline off the poll's or petition's stored content and the jurisdiction's table, both ways. |
| Permissions.VoteUpdateExactly | public-record/src/record.ts:564-582 | An update of a live vote passes its rules if and only if its author or the platform makes it, its content is valid, its poll is live, and the poll's content and the jurisdiction's table refuse no change and set no deadline that has passed, and the walk to its root ends. |
| Permissions.SignatureDeleteExactly | public-record/src/record.ts:584-597 | The same for the deletion of a signature and revocation. |
| Permissions.SignedVoteUpdate | public-record/src/record.ts:325-359 | An accepted signed call on a vote is an update that the poll's content and the table of the thread's jurisdiction permit then. |
| Permissions.UnsignedVoteUpdate | public-record/src/record.ts:646-667 | An accepted unsigned call on a vote is an update that the poll's content and the table of the last resort permit then. |
| Permissions.SignedRevocation | public-record/src/record.ts:325-359 | An accepted signed call on a signature is a deletion that the petition's content and the jurisdiction's table permit then. |
| Permissions.UnsignedRevocation | public-record/src/record.ts:669-689 | The same on the unsigned path. |
| Permissions.FinalPollRefuses | public-record/src/record.ts:574-579 | On neither path is a vote changed whose poll's readable content makes votes final or sets a date that is not ahead, whatever the jurisdiction says. |
| Permissions.FinalPetitionRefuses | public-record/src/record.ts:590-595 | On neither path is a signature revoked whose petition's readable content says so in the same way. |
| RecordRuns.UnsignedSound | public-record/src/record.ts:601-689 | On a well-formed log an unsigned write that passes its checks keeps its entity's type, names its parent in full or not at all, and attaches to that parent properly. |
| RecordRuns.SignedSound | public-record/src/record.ts:188-362 | A submission that passes every signed check extends the log properly if and only if its envelope is faithful: an edit declares its entity's type, a create names both or neither of parent type and parent id. |
| RecordRuns.CommitLinks | public-record/src/private/store.ts:309-382 | The locked append of a checked write, however old its checks, keeps the log chained; it keeps a well-formed log well formed if and only if the envelope is faithful. |
| RecordRuns.StepKeeps | public-record/src/record.ts:188-362 | Each step keeps the chain, and keeps the log well formed if and only if what it appends is faithful. |
| RecordRuns.RunKeeps | public-record/src/record.ts:188-362 | In every run of both write paths, whatever callers send, with checks and appends, joins, erasures and settlements interleaved, the log stays chained and hashed; and it is well formed if and only if every envelope the run appended was faithful when it was appended. Refused submissions do not matter. |
| RecordRuns.EveryRunIsChained | public-record/src/record.ts:325-359 | In every run, whatever callers send, each history is one hash-linked line that never changes its parent, its pinned revision or, but for the platform, its author. |
| RecordRuns.UnsignedRunsAreFaithful | public-record/src/record.ts:601-689 | Runs of the unsigned path need no assumption about their callers. |
| RecordRuns.EveryRunIsAForestOfLines | public-record/src/record.ts:188-362 | In every run whose appended envelopes were faithful each entity's history is one line, type included, and it lies under an existing root of a root type, which the walk over current heads finds, within the nesting bound. |
| RecordRuns.PersonasExactly | public-record/src/schema/postgres.sql.ts:141-152 | In every run a user has one persona in a thread and the platform is none; a key is registered if and only if a join brings it, it is new and no platform key, and its user has no persona in the thread; a registered key stays as it is. |
| RecordRuns.SubmitKeepsIffFaithful | public-record/src/record.ts:325-359 | One accepted signed call keeps the log well formed if and only if its envelope is faithful. |
| RecordRuns.EditCanChangeType | public-record/src/record.ts:325-348 | A concrete accepted update that turns a post into a poll: the envelope's type is not compared with the head's. |
| RecordRuns.RootCanNameAParent | public-record/src/record.ts:285-301 | A concrete accepted root create that stores itself as its parent: a parent id without a parent type counts as parentless. |
| ParentWalks.RootOrNever | public-record/src/record.ts:545-553 | On any log the walk to the root answers within as many steps as there are rows, or never. |
| ParentWalks.WalksEndExactly | public-record/src/record.ts:545-553 | In every run, as long as all walks end, a step keeps them ending if and only if what it appends does not close a circle: no row of a non-root type names a parent from which the walk comes to the row's own entity. |
| ParentWalks.WalksEndWithoutEither | public-record/src/record.ts:545-553 | The walks end in every run that avoids either of the two unfaithful forms: creates that name a bare parent id, or edits that declare a root type to be a non-root type. |
| ParentWalks.WalksEndWhileGrounded | public-record/src/record.ts:545-553 | The walks end in every run that leaves no head with a bare parent id under a non-root type. |
| ParentWalks.TwoCallsMakeACircle | public-record/src/record.ts:545-553 | Two accepted calls after which every number of steps from entity 10 stays at 10: a post naming itself as its bare parent, then an edit declaring it a comment. |
| RootMoves.RootMovesExactly | public-record/src/record.ts:545-553 | On every chained log, circles included, a row moves an entity's root if and only if the walk from the entity comes to the row's entity and the row changes whether that has a link upwards. |
| RootMoves.RootStays | public-record/src/record.ts:545-559 | In every continuation of a chained log an entity keeps its root, and the root its edits are checked against, as long as no row in between moves it. |
| RootMoves.FaithfulLogsMoveNoRoot | public-record/src/record.ts:545-553 | In a well-formed log no row moved the root of an entity that was there before. |
| Counterexamples.VoteBecomesItsOwnRoot | public-record/src/record.ts:332-357 | A run from the empty store in which an accepted edit declares a vote a post: its root moves from the poll to itself, and one persona has rows under two roots. |
| Acceptance.CreateRulesExactly | public-record/src/record.ts:499-543 | On every log, a create passes the shared rules if and only if it is a root without a parent or an attachment to a live parent of an allowed, recorded type with room for it, from which the walk to the root ends; it is pinned to the parent's head and placed under the root that walk finds. |
| Acceptance.ShapedGuards | public-record/src/record.ts:545-559 | On a well-formed log the room and the roots in the guards are those fixed at creation. |
| Acceptance.EditRulesExactly | public-record/src/record.ts:561-597 | On every log, an update or deletion passes its rules if and only if the entity is live, its type has the op, its creator or the platform asks, new content is valid, a vote's poll lets votes change, a signature's petition lets it be revoked, and the walk to the root ends; the answer is the head and that root. |
| Acceptance.ChecksPassExactly | public-record/src/record.ts:188-362 | On every log, the checks of a signed call, in their order, pass if and only if every guard holds. |
| Acceptance.AcceptedExactly | public-record/src/record.ts:188-362 | On every log, a signed call is accepted if and only if every guard holds, in whatever order, and its transaction id is new to the log and the ledger. |
| Acceptance.WriteExactly | public-record/src/record.ts:601-689 | On every log, an unsigned call is accepted if and only if every guard holds, in whatever order: the rules, a free entity and a fresh transaction id, and for a singleton none of its author's standing on the parent. It then adds exactly the row asked for, pinned to the parent's head or carrying its own head's type, parent and pin, and its content; otherwise it changes nothing. |
| Record.RecordService.ResolveRoot | public-record/src/record.ts:545-553 | The walk over current parent pointers ends where the specification walk ends, whenever that has an end; on a well-formed log that is the root fixed when the entity was created. An unknown parent is its own answer. |
| Record.RecordService.NewCommentDepth | public-record/src/record.ts:772-782 | The walk counts one more than the comments above the parent, on any chained log; on a well-formed log that is the depth fixed at creation. |
| Record.RecordService.RootOfHead | public-record/src/record.ts:556-559 | The root of an entity from its head row, walking current heads. |
| Record.RecordService.CheckCreation | public-record/src/record.ts:499-543 | The create rules in order, with the pinned revision, root and singleton flag they derive, and which error each violation gives. |
| Record.RecordService.CheckUpdate | public-record/src/record.ts:564-582 | The update rules in order; when they pass is `Acceptance.EditRulesExactly`, and for a vote, on the poll's content, `Permissions.VoteUpdateExactly`. |
| Record.RecordService.CheckDelete | public-record/src/record.ts:584-597 | The delete rules in order; when they pass is `Acceptance.EditRulesExactly`, and for a signature, on the petition's content, `Permissions.SignatureDeleteExactly`. |
| Record.RecordService.AppendRow | public-record/src/private/store.ts:309-382 | The append adds exactly one row and its content, or is rejected and changes nothing. |
| Record.RecordService.Prepare | public-record/src/record.ts:113-170 | A client may prepare exactly what the rules of the last resort allow; a prepared edit carries the head's link, parent, pin and nullifier, a prepared create the parent's head, the entity its nullifier is scoped to, and its root. |
| Record.RecordService.Write | public-record/src/record.ts:601-689 | An unsigned call is accepted exactly when every guard holds; it either changes nothing and gives its error or adds exactly the derived row; the log stays chained and every walk over it ends, and a well-formed log stays well formed, whatever the caller sends. |
| Record.RecordService.AuthorizeCreate | public-record/src/record.ts:288-324 | The signed create checks pass if and only if every guard holds, in whatever order; a first-use nullifier is attested on the way and stays attested if a later check rejects the call. |
| Record.RecordService.AuthorizeEdit | public-record/src/record.ts:325-359 | The signed update and delete checks pass if and only if every guard holds, in whatever order: head, op rules, thread scope, preserved parent, delete marker, carried nullifier. |
| Record.RecordService.Authorize | public-record/src/record.ts:188-362 | The checks of a signed call pass if and only if every guard holds, in whatever order; it leaves the attestations of the checks in their order. |
| Record.RecordService.AppendSigned | public-record/src/record.ts:188-362 | A signed call's whole effect on the tables. An accepted call keeps the log well formed if and only if its envelope is faithful, and every walk ending if and only if it closes no circle; a rejected one leaves the log alone. |
| SemanticHelpers.HelperRunsKeepOneActive | public-record/src/record.ts:694-727 | Every run of react, vote, change, sign and revoke, by personas and, with lookups that answer right, by the platform, keeps one active singleton per type, author and parent. |
| SemanticHelpers.HelperEffect | public-record/src/record.ts:694-727 | An accepted helper leaves exactly the row it wrote as the author's active one, on the entity found before or the fresh one, reading as asked; a revocation leaves none. |
| SemanticHelpers.HelperAcceptedExactly | public-record/src/record.ts:694-727 | Where the lookup answers right, a helper is accepted if and only if its transaction id is fresh and: casting or signing, the author has none yet and the create rules pass; changing a vote or revoking, there is one and its edit rules pass; reacting, the one or the other. |
| SemanticHelpers.HelperWrites | public-record/src/record.ts:694-727 | An accepted helper writes one row of its type, by the author, on the parent and with the content asked: created if and only if none was found, a tombstone exactly for a revocation; voting and signing always create, and a change or revocation never does. |
| SemanticHelpers.WriteKeepsOneActive | public-record/src/record.ts:624-631 | An accepted unsigned write, by anyone, keeps active singletons unique per author and parent if and only if it is not a platform edit that takes over a singleton beside one the platform holds already. |
| SemanticHelpers.PlatformEditFreesTheAuthor | public-record/src/record.ts:739-743 | After a platform edit of a singleton its author holds none. |
| SemanticHelpers.SecondWriteIsAccepted | public-record/src/record.ts:739-743 | And a second write by that author is accepted as soon as the create rules and a fresh id allow it: two live entities of the type then stand on the parent. |
| Singletons.RunIsWellFormedExactly | public-record/src/record.ts:188-362 | A signed-only run ends in a well-formed log if and only if each call it accepted was faithful when made. |
| Singletons.CallIsCheckThenCommit | public-record/src/record.ts:188-362 | A whole signed call is its checks followed at once by its append. |
| Singletons.RowIsOkExactly | public-record/src/record.ts:325-359 | An accepted call's row carries its user's attested nullifier if its type asks for one, if and only if the call does not declare a singleton's type for an entity of another; and it is marked exactly as its type asks if and only if it keeps the kind both ways. |
| Singletons.SlotsKeptExactly | public-record/src/record.ts:302-359 | A signed-only run keeps the singleton invariant (attested nullifiers, attestations injective per parent, no two active rows on a parent under one nullifier) if and only if no edit it accepted declared a singleton's type for an entity of another. |
| Singletons.SignedRunKeeps | public-record/src/record.ts:302-359 | Every signed-only run whose accepted calls were faithful has a well-formed log and the singleton invariant together. |
| Singletons.OneSingletonPerUserExactly | public-record/src/record.ts:302-324 | After a signed-only run, through casts, changes, revocations and re-creations, each user has at most one active singleton per parent, with the attested nullifier, and active singletons on a parent map injectively to users, if and only if no accepted edit declared a singleton's type for an entity of another. |
| Singletons.MarkedExactly | public-record/src/record.ts:325-359 | All rows of a signed run are marked exactly as their types ask if and only if every accepted edit kept its entity's kind both ways. |
| Counterexamples.DemotionKeepsTheRule | public-record/src/record.ts:332-357 | A run in which an edit declares a vote a comment and the rule still holds: the condition on kinds is stronger than needed. |
| Singletons.PersonaStaysInItsThread | public-record/src/record.ts:299-301 | In every signed-only run each row was accepted under the root of its persona's thread, as the service computed the root at that moment. |
| Singletons.RootWhenAgrees | public-record/src/record.ts:545-559 | On a well-formed log the root computed at a row's acceptance is the entity's root for good. |
| Singletons.ThreadsKeptExactly | public-record/src/record.ts:299-301 | As long as all rows lie under their authors' threads, an accepted call keeps it so if and only if it moves the root of no entity that is there. |
| Singletons.PersonaUnderOneRoot | public-record/src/record.ts:299-301 | In a signed run whose accepted calls moved no root, all rows by one persona lie, by current heads, under one root, that of its thread. |
| Singletons.FaithfulCallsMoveNone | public-record/src/record.ts:299-301 | Faithful calls move no root. |
| Singletons.RacingCreate | public-record/src/record.ts:302-324 | The append of a checked singleton create keeps active singletons unique if and only if no active entity bears the nullifier at the append itself; the check alone does not give that. |
| Singletons.StepClashesExactly | public-record/src/record.ts:302-324 | With checks and appends interleaved in any way, a step keeps active nullifiers unique on their parents if and only if it is not the append of a create whose nullifier is active there by then. |
| Singletons.PendingStaysMarked | public-record/src/record.ts:302-359 | In every run, whatever callers send, a pending create that bears a nullifier names a parent, and a pending edit that bears one carries it from the row it was checked against. |
| Singletons.NullifiersStayUnique | public-record/src/record.ts:302-324 | Every interleaved run without such an append keeps active nullifiers unique on their parents. |
| Counterexamples.OneUserVotesTwice | public-record/src/record.ts:332-357 | A run from the empty store, accepted call by call, after which one user holds two active votes on one poll and both count: a vote is declared a comment, loses its nullifier, and after a second vote is declared a vote again. |
| Counterexamples.RacingVotes | public-record/src/record.ts:302-324 | A run from the empty store in which two votes of one user are checked before either is appended: both land under one nullifier. |
| Concurrency.OneSuccessor | public-record/src/record.ts:325-332 | In any chained log a row has at most one successor in its entity's history. |
| Concurrency.NothingIsLost | public-record/src/private/store.ts:309-382 | The log before any step is a prefix of the log after every continuation. |
| Concurrency.FirstEditWins | public-record/src/record.ts:113-170 | In every run, whatever callers send and however checks and appends interleave, at most one of the edits prepared on one head is accepted, and it stays. |
| Concurrency.StaleExactlyWhenMoved | public-record/src/record.ts:325-332 | On any log, a prepared edit is rejected as stale if and only if the head moved in between. |
| Concurrency.PreparedEditPasses | public-record/src/record.ts:325-359 | With the head unmoved, an edit built from its prepared fields is accepted if and only if the op rules still allow it, its root did not move, and the head bears a nullifier exactly if it is a singleton; if only the root moved, it is the wrong thread. |
| Concurrency.PreparedCreatePasses | public-record/src/record.ts:288-324 | With the parent unmoved and the id free, a create built from its prepared fields passes every concurrency check if and only if the parent's root did not move; only content rules and the nullifier gate remain. |
| VerifyChain.VerifyEntityChain | public-record/src/verify.ts:34-66 | The report is ok if and only if the history is non-empty and every row's envelope hashes to its stored hash, links to the row before, equals its verified ledger entry, and has lost its salt or content or opens its commitment; each of the four findings on a row says just that, and a row whose content does not open its commitment is a mismatch. |
| VerifyChain.RunKeepsContent | public-record/src/verify.ts:54-59 | In every run unerased contents open their commitments and the ledger repeats the log. |
| VerifyChain.RunsVerify | public-record/src/verify.ts:34-66 | Every non-empty history any run produces verifies once it is on the ledger, after any erasures; each row not erased is found to match its commitment, and each erased one to be erased. |
| VerifyChain.LastHashPinsHistory | public-record/src/verify.ts:34-66 | Two accepted histories with the same last hash are equal transaction for transaction, even for different ledgers. |
| VerifyChain.RevealedContentsAgree | public-record/src/verify.ts:53-59 | Where both histories still reveal a row's content, salt and content agree, if the commitment binds. |
| Walkers.HopsBounded | public-record/src/schema/types.ts:165 | On a well-formed log a root or comment is as many links from its root as its nesting depth; any other attachment at most one more than the bound. |
| Walkers.ResolveThreadId | api/src/services/record-state.service.ts:83-93 | On every log the four-read walk answers the root if and only if the whole chain is live, ends at a root type and is at most three links long, and the entity itself otherwise. |
| Walkers.FourStepsSuffice | api/src/services/record-state.service.ts:83-93 | On a well-formed log four reads place every root and comment whose chain is live; the one live kind they cannot place is a reaction on a comment at the deepest level. |
| Walkers.ProjectionRoot | api/src/services/civic-record.service.ts:392-397 | On every log the eight-hop walk ends where eight parent pointers lead; on a well-formed log that is the root of every entity, deleted ancestors included. |
| Walkers.ProjectionExactly | api/src/services/civic-record.service.ts:392-397 | Where the walk to the root ends, the projection finds that root if and only if it is at most eight links away and the pointers left lead nowhere else; a root that names no parent leaves none. |
| Counterexamples.ProjectionLeavesTheRoot | public-record/src/record.ts:285-286 | One accepted create after which the projection leaves the root for a bare parent id where there is no row. |
| Walkers.TreeEndsExactly | public-record/src/projection.ts:38-52 | On every log, collecting the tree below an entity goes on for ever if and only if the entity is a live comment under itself. |
| Walkers.RootedIsNotUnderItself | public-record/src/projection.ts:38-52 | An entity whose walk to the root ends is not under itself, so its tree ends. |
| Counterexamples.CommentTreeNeverEnds | public-record/src/projection.ts:38-52 | The two calls that make a circle also make the comment tree endless. |
| Walkers.CommentTree | public-record/src/projection.ts:38-52 | Wherever the recursion ends it builds the tree of live replies in child order. |
| Walkers.TreeListsExactly | public-record/src/projection.ts:38-52 | Wherever the recursion ends the tree lists exactly the live comments reached through live comments. |
| Walkers.CollectTree | api/src/services/persona-page.service.ts:139-148 | On every log, circles included, the capped collector ends and builds the capped tree. |
| Walkers.CappedListsExactly | api/src/services/persona-page.service.ts:139-148 | On every log the capped tree lists exactly the live comments at most as many steps below as the cap allows. |
| Walkers.CappedIsCut | api/src/services/persona-page.service.ts:139-148 | Wherever the whole tree exists, the capped tree is that tree cut below the cap. |
| Walkers.CapCutsNothing | api/src/services/persona-page.service.ts:139-148 | Wherever the whole tree exists, the capped tree is all of it if and only if no chain of live comments is longer than the cap. |
| Walkers.CollectorsAgree | api/src/services/persona-page.service.ts:139-148 | On a well-formed log both collectors build the same tree, because of the nesting bound. |
| Tallies.ParticipantsAreRows | public-record/src/private/store.ts:932-950 | Counting distinct participants of active singletons on a parent counts the entities, as long as a participant has one entity per parent. |
| Tallies.SignatureCountExactly | public-record/src/private/store.ts:932-939 | A petition's signature count never exceeds its live signatures, and equals them if and only if no participant holds two. |
| Tallies.PollCountExactly | public-record/src/schema/postgres.sql.ts:416-420 | A poll's count for an option is the number of participants, by nullifier or else author, behind its live votes whose content says that option; an erased one says none. |
| Tallies.SignersExactly | public-record/src/schema/postgres.sql.ts:403-411 | A petition's count is the number of participants behind its live signatures. |
| Tallies.ReactorsExactly | public-record/src/schema/postgres.sql.ts:379-393 | A parent's count for a kind is the number of participants behind its live reactions of that kind. |
| Tallies.SupportersExactly | public-record/src/schema/postgres.sql.ts:397-400 | A revision's count for a kind is the number of participants behind the live reactions of that kind pinned to it. |
| Tallies.OptionCountsAddUp | public-record/src/private/store.ts:940-950 | A poll's option counts, over any list that covers its options, never exceed the votes it holds, and add up to them if and only if no participant holds two votes for one option. |
| Tallies.SignedOptionCounts | public-record/src/private/store.ts:940-950 | The option counts add up after every signed run in which no accepted edit declared a singleton's type for an entity of another. |
| Tallies.SignedParticipants | public-record/src/private/store.ts:932-950 | The singleton invariant gives each participant, told apart by nullifier, one active entity per parent. |
| Tallies.UnsignedParticipants | public-record/src/private/store.ts:932-950 | On unsigned logs with one active singleton per author, participants are told apart by author. |
| Tallies.EveryVoteStays | public-record/src/schema/types.ts:232-243 | On a well-formed log the votes a poll holds are all votes ever cast on it: a vote is never deleted. |
| Tallies.TotalFallsExactly | public-record/src/record.ts:325-359 | From any store, a signed step lowers a poll's total if and only if it is an accepted edit that declares one of its votes to be something else. |
| Tallies.VotesNeverLost | public-record/src/private/store.ts:940-950 | A poll's total never falls between any two points of a signed run, unless a step in between declares one of its votes to be something else. |
| Counterexamples.VoteDeletedAsComment | public-record/src/record.ts:332-357 | A run from the empty store in which a vote, which may never be deleted, is declared a comment and deleted. |
| Tallies.VoteChangesNeedPermission | public-record/src/record.ts:564-582 | From any store, a recorded vote reads differently after a step only if the step was an accepted change of it that the poll's effective rules allow now, or an erasure of it. What the rules allow is `Permissions.GatesReadContent`. |
| Tallies.LateChangesExactly | public-record/src/record.ts:564-582 | Once a poll's votes may not change, what an existing entity adds to the poll changes if and only if an accepted edit declares something else to be its vote, or its vote is erased. |
| Tallies.OtherUpdatesIgnoreDeadlines | public-record/src/record.ts:564-582 | Whether an update of something that is no vote passes does not depend on the time or on any rules, so a vote declared a comment in time can come back as any vote later. |
| Tallies.FrozenExactly | public-record/src/record.ts:520-523 | From any store, once a poll or petition is deleted a step moves the set of its active votes or signatures if and only if it is an accepted edit that declares something else to be one. |
| Tallies.DeletedParentIsFinal | public-record/src/record.ts:520-523 | Once a poll or petition is deleted its active votes or signatures are the same in every continuation, erasures included, as long as no step declares something else to be one. |
| Counterexamples.DeletedPollGainsAVote | public-record/src/record.ts:332-357 | A run from the empty store in which a comment on a deleted poll is declared its vote, and the deleted poll's tally moves. |
| Tallies.ErasureMovesExactly | public-record/src/private/store.ts:940-950 | An erasure moves a poll's count for an option if and only if it erases the head of an active vote, the option is the recorded one, which loses it, or none, which gains it, and no other vote counted for that option is the same participant's. |
| Tallies.ParticipantsStandAlone | public-record/src/private/store.ts:940-950 | With one entity per participant no other vote of the participant stands in the way. |
| Counterexamples.ErasureBesideAnother | public-record/src/record.ts:332-357 | A run from the empty store in which one author holds two votes for an option, and erasing one leaves the option's count. |
| Tallies.DeletedPollIsFinal | public-record/src/record.ts:520-523 | Once a poll is deleted, its count for an option is the same in every continuation, as long as no step declares something else to be its vote or erases a vote that records that option. |
| Tallies.DeletedPetitionIsFinal | public-record/src/record.ts:584-597 | Once a petition is deleted its signature count is constant in every continuation, erasures included, as long as no step declares something else to be its signature. |
| Tallies.PinNamesParent | public-record/src/record.ts:534-538 | In any chained log a row pinned to a revision names the entity the revision belongs to as its parent. |
| Tallies.RevisionCountsAddUp | public-record/src/projection.ts:55-63 | In any chained log, for each kind, the per-revision counts over all revisions of a parent count who supports which revision. Against the per-entity count they leave out the participants all of whose reactions are unpinned, and count again those with reactions pinned to several revisions, by exactly those numbers; no one is counted again if and only if no participant's reactions are pinned to two revisions. |
| Tallies.PinnedSumExactly | public-record/src/projection.ts:55-63 | Where every reaction of the kind on the parent is pinned, the sum is at least the per-entity count, and equal to it if and only if no participant's are pinned to two revisions. |
| Tallies.ParticipantsLeftOut | public-record/src/projection.ts:55-63 | With one entity per participant the sum leaves out exactly the unpinned reactions, and equals the per-entity count if and only if there are none. |
| Counterexamples.OneAuthorTwoRevisions | public-record/src/record.ts:332-357 | A run from the empty store after which every reaction on a parent is pinned, its per-entity count is one and the sum over its revisions is two. |
| Counterexamples.ReactionWithoutRevision | public-record/src/record.ts:285-286 | Two accepted calls after which a reaction stands on a parent and counts for no revision of it. |
| Tallies.SignedRevisionCounts | public-record/src/projection.ts:55-63 | The sums hold after every signed run in which no accepted edit declared a singleton's type for an entity of another. |
| Tallies.UnsignedRevisionCounts | public-record/src/projection.ts:55-63 | The sums hold after every run of unsigned helper calls, by personas and, with lookups that answer right, by the platform. |
| Tallies.SignedEditMovesNoSupport | public-record/src/record.ts:325-348 | In any chained log an accepted signed call that has nothing to do with reactions changes no per-revision count at all, and its hash starts with none. |
| Tallies.SignedEditKeepsSupport | public-record/src/record.ts:325-359 | In any chained log an accepted signed edit or deletion, whatever types it declares, changes no count of an earlier revision of its entity, and its hash starts with none. |
| Tallies.EditingMovesNoSupport | public-record/src/record.ts:646-667 | In any chained log an unsigned write that is no reaction changes no per-revision count at all, and the revision it makes starts with none. |
| Tallies.UnsignedEditKeepsSupport | public-record/src/record.ts:646-689 | The same for an unsigned edit or deletion. |
| EffectiveDating.GeoStore.UpsertDistrict | geo/src/store.ts:147-190 | The table holds the revision afterwards and every other revision is as it was; a fresh id is added. |
| EffectiveDating.DistrictIdBySlugAsOf | geo/src/store.ts:461-475 | The single-seat lookup as a scan that keeps the latest date. |
| EffectiveDating.SeatLookupAgrees | geo/src/store.ts:446-475 | Where the single-seat lookup finds a revision it is in the forward set if and only if the seat's latest date is not shared; with a tie the two queries are free to differ. |
| EffectiveDating.SeatLookupExactly | geo/src/store.ts:461-475 | The lookup finds a revision of that very seat and jurisdiction, dated by then, with none later, or nothing because there is none. |
| EffectiveDating.SetExactly | geo/src/store.ts:446-459 | The boundary set lists exactly the revisions of the jurisdiction dated by then of whose seat none later is; the reverse lookup finds one of them that has the point, or nothing because none has. |
| EffectiveDating.ReverseAgreesWithForward | geo/src/store.ts:563-577 | Reverse lookup succeeds if and only if the in-force set contains the point. Both queries share the model's tie rule; where a seat's latest date is not unique, SQL leaves open whether they do. |
| EffectiveDating.LaterRevisionInvisible | geo/src/store.ts:446-475 | A revision dated after `asOf` changes none of the three answers at `asOf`. |
| Regions.ParsesExactly | geo/src/region-ref.ts:42-55 | A text parses to a reference if and only if it is that reference's printed form with a non-empty payload. |
| Regions.ResolvesExactly | geo/src/region-resolver.ts:96-136 | Resolution succeeds if and only if every base reference in the tree parses and every preset it names exists. |
| Regions.CollapseMeaning | geo/src/region-resolver.ts:100-108 | The flat union an `or` collapses to contains a point if and only if some child does. |
| Regions.MeaningPreserved | geo/src/region-resolver.ts:96-136 | For every reference tree the resolved region contains a point if and only if the set semantics of the tree do: `not` inside the jurisdiction and of its first child only, empty unions empty. |
| Regions.EmptyDenotesNothing | geo/src/region.ts:73-87 | A resolver-built region that calls itself empty denotes no point. |
| Regions.EmptyContainsNothing | geo/src/region.ts:47-87 | A region whose negations are all bounded contains nothing if it calls itself empty. |
| Regions.LegacyListResolves | geo/src/region-ref.ts:57-62 | An id list resolves if and only if no id is empty, to the duplicate-free union of the same revisions. |
| Regions.LaterRevisionChangesNoRegion | geo/src/region-resolver.ts:61-65 | A fresh revision dated after `asOf` changes neither whether a reference that does not name it resolves nor which points it has. |
| Regions.ScopeMeaning | geo/src/region-resolver.ts:147-169 | A scope compiles if and only if what it names can be looked up. It then contains exactly the points it stands for, a declared stake going before the id list and an empty one meaning the whole jurisdiction, and it is no filter exactly for everything-public or a viewer without a district. |
| Regions.RegionBelongsTo | geo/src/region-resolver.ts:49-136 | A resolved region belongs to the jurisdiction of the request, a stored preset to its own, and a revision named like a preset to the global one. |
| Regions.PinnedDenotes | geo/src/region-ref.ts:57-62 | An id list stands for exactly the points of its revisions. |
| Base59.EncodeBase59 | encode/src/base59.ts:49-65 | The loop gives the shortest Base59 text, one zero digit for zero, and an error for negatives. |
| Base59.DecodeBase59 | encode/src/base59.ts:68-82 | The loop gives the positional value, or an error that names the first bad character or the empty text. |
| Base59.DigitsAreAlphabet | encode/src/base59.ts:4-12 | The character map is the inverse of the alphabet, both ways. |
| Base59.EncodedDecodes | encode/src/base59.ts:49-82 | Decoding undoes encoding for every number. |
| Base59.DecodedEncodes | encode/src/base59.ts:49-82 | Encoding an accepted text's number gives the text without its leading zero digits, or one zero digit. |
| Base59.HexRoundTrip | encode/src/base59.ts:85-104 | Hex of any length comes back lowercase when decoded at its own width. |
| Base59.StrippedRoundTrip | encode/src/base59.ts:16-23 | Without a width, hex comes back lowercase without its leading zeros. |
| Base59.HexExactly | encode/src/base59.ts:14-39 | Exactly the 22 hex characters are accepted, in either case, each for its value. |
| UuidBase59.HyphensRemoved | encode/src/uuid-base59.ts:38-59 | Removing hyphens undoes hyphenating. |
| UuidBase59.EncodesPayload | encode/src/uuid-base59.ts:88-92 | A text encodes if and only if it is a UUID v4, to the Base59 text of its 31-digit payload. |
| UuidBase59.UuidRoundTrip | encode/src/uuid-base59.ts:88-106 | Decoding an encoded UUID v4 gives its lowercase form. |
| UuidBase59.EncodingIsInjective | encode/src/uuid-base59.ts:88-92 | Two UUIDs share an encoding if and only if they are equal up to case. |
| UuidBase59.EncodingIsShort | encode/src/uuid-base59.ts:88-92 | Every encoding has 1 to 22 characters of the alphabet. |
| UuidBase59.DecodedUuidEncodes | encode/src/uuid-base59.ts:98-106 | Every accepted text decodes to a lowercase UUID v4 that encodes to the text without its leading ones. |
| MentionTokens.ParseMentionTokens | encode/src/mention-token.ts:30-45 | The early exit and the loop both give the left-to-right scan. |
| MentionTokens.CollectMentionNodeIds | encode/src/mention-token.ts:48-59 | The nested loops give the first occurrences of all mentioned ids. |
| MentionTokens.PrintThenScan | encode/src/mention-token.ts:9-45 | For any alternation of texts free of `<@` and built tokens the scan lists exactly the printed nodes, lowercase, in order, each with its token at the place where it stands. |
| MentionTokens.PrintThenCollect | encode/src/mention-token.ts:48-59 | The ids of a printed text are the printed nodes in order. |
| MentionTokens.ScanExactly | encode/src/mention-token.ts:30-45 | In any text the scan lists a mention if and only if a decodable token stands at its index. |
| FirstOccurrences.DedupeKeeps | encode/src/mention-token.ts:48-59 | The collected list has the same members and no repeats. |
| FirstOccurrences.DedupeOrders | encode/src/mention-token.ts:48-59 | The collected list is in order of first appearance. |
| AccountTables.AccountDb.ConsumeChallenge | api/src/repo/passkey.repo.ts:150-159 | Exactly the open challenges with the text and purpose are consumed and nothing else changes; one of them is returned, or none because there is none. |
| AccountTables.AccountDb.BindGrant | api/src/repo/passkey.repo.ts:198-215 | One open, unbound grant of the user with that token hash is bound, and nothing else changes, if and only if there is one, the ceremony exists and no grant is bound to it. |
| AccountTables.AccountDb.InsertSession | api/src/repo/session.repo.ts:24-39 | A session is inserted if and only if its id is new, its user and any passkey it names exist and it is not revoked; nothing else changes. |
| AccountTables.AccountDb.FinalizeAuthorizedEnrollment | api/src/repo/passkey.repo.ts:221-281 | It succeeds if and only if the ceremony is the user's own open registration with that text, some open grant of the user bound to it has the presented token's hash, and the row is free. Then exactly that challenge and those grants are spent and the passkey is added; otherwise nothing changes. |
| AccountTables.AuthorizedAddsPasskey | api/src/repo/passkey.repo.ts:221-281 | The same of the transaction as a function of the tables, row by row. |
| AccountTables.AccountDb.FinalizeRecoveryEnrollment | api/src/repo/passkey.repo.ts:288-374 | The step-by-step reset ends as one atomic change or, rolled back, as none. |
| AccountTables.RecoveryResetsAccount | api/src/repo/passkey.repo.ts:288-374 | A reset succeeds if and only if the session is the user's own open recovery session, the ceremony their own open one under that session, and no other account stands in the way of the row. Then, row by row, the account's passkeys are replaced by the new one, its sessions revoked, its grants and the ceremony spent, references to lost passkeys cleared, and all else is as it was; otherwise nothing changes. |
| AccountRuns.StepKeeps | api/src/repo/passkey.repo.ts:122-374 | Every step of enrollment, recovery, sign-in and removal keeps the invariant of the account tables. |
| AccountRuns.PasskeysExactly | api/src/services/passkey.service.ts:401-489 | In any world that keeps the invariant a step adds a passkey if and only if a client inserts it behind its own spent ceremony, or a grant or a recovery session pays for it; and one goes if and only if its owner deletes it or a recovery resets its account. |
| AccountRuns.SessionsExactly | api/src/repo/session.repo.ts:24-39 | A step opens a session if and only if a client that read a passkey opens it while passkey and owner stand, in the owner's name and in full, or it is a limited one that names no passkey. |
| AccountRuns.ClientsStartExactly | api/src/repo/passkey.repo.ts:150-159 | A client starts an enrollment only by spending the user's own open registration challenge with that text, and a sign-in only by naming a passkey that stands. |
| AccountRuns.EveryRunIsSafe | api/src/repo/passkey.repo.ts:198-374 | In every run each challenge and each grant pays for at most one passkey, a session completes at most one reset, and no session a wiped passkey opened is active. |
| AccountRuns.ResetIsLasting | api/src/repo/passkey.repo.ts:340-358 | No session a reset revoked and no grant it consumed is usable in any continuation. |
| AccountRuns.ResetEndsOldCeremonies | api/src/repo/passkey.repo.ts:288-374 | In every continuation of a reset no recovery through a session of the account from before it succeeds, and an enrollment succeeds only through a grant issued after it. |
| AccountRuns.PendingEnrollmentOutlivesReset | api/src/services/passkey.service.ts:401-433 | An enrollment that consumed its challenge before a reset still adds its passkey after it, so that the account then has two. |
| AccountRuns.PendingSurvivesExactly | api/src/services/passkey.service.ts:401-433 | Right after a reset an enrollment adds its passkey if and only if it had consumed its challenge before, for that user, and its row is good: a reset stops no pending enrollment. |
| AccountRuns.RemovalEndsExactly | api/src/services/passkey.service.ts:473-489 | With any events between revoking a passkey's sessions and deleting it, a session the passkey opened is active afterwards if and only if it was opened in between and is still active. |
| AccountRuns.RemovalAlone | api/src/services/passkey.service.ts:473-489 | With nothing in between a removal deletes the passkey and ends exactly the sessions that name it, and touches nothing else. |
| AccountRuns.RemovalIsTwoSteps | api/src/services/passkey.service.ts:473-489 | A sign-in that lands between the two stays active after the passkey is gone. |
| AccountRuns.EnrollSignInRecover | api/src/repo/passkey.repo.ts:122-374 | A run from empty tables: a bootstrap enrollment, a sign-in, and a recovery that swaps the passkey and ends the sign-in. |
| KycSessions.KycSessionService.ClaimAttestation | api/src/repo/kyc-session.repo.ts:68-77 | Only the first caller gets the row. |
| KycSessions.KycSessionService.ApplyApprovedSession | api/src/services/kyc-session.service.ts:152-184 | Only the session's row changes, and only to attested; there is one new award if nobody had claimed the session, it is no recovery and its workflow has a tier, and none otherwise. |
| KycSessions.KycSessionService.HandleWebhook | api/src/services/kyc-session.service.ts:129-150 | Only the session's row changes: it takes the event's status, and an approved event attests it; there is one new award if the event is approved and the session was awardable, and none otherwise. |
| KycSessions.KycSessionService.PollSession | api/src/services/kyc-session.service.ts:61-90 | The vendor is asked if and only if the session is the caller's, unclaimed, not declined, abandoned or expired, and was not polled within five seconds. Then only its row changes, to the vendor's status and the time, and an approved answer attests it and awards unless it is a recovery; otherwise nothing changes. The caller is told the vendor's status or the stored one. |
| KycSessions.AwardsAreRight | api/src/services/kyc-session.service.ts:129-193 | However polls and webhooks interleave at their awaits: at most one award per session, none for a recovery, each with the tier of its decision's workflow and the stored kind, a poll's decision approved; and with no handler left an attested session that is no recovery has its award unless its handler died. |
| KycSessions.TierOfStartedSession | api/src/services/kyc-session.service.ts:186-193 | A recovery earns nothing; any other session earns residency if and only if it comes back with the proof-of-address workflow, or is of that kind and comes back with one that is not mapped, and identity otherwise; so the workflow of its own kind earns the tier of its kind if and only if the two workflow ids are configured apart. |
| KycSessions.PollsAreSpaced | api/src/services/kyc-session.service.ts:69-74 | A poll that asked the vendor leaves the next one within the interval without effect. |
| KycSessions.HookIgnoresDecisionStatus | api/src/services/kyc-session.service.ts:141-149 | An approved webhook event awards an unclaimed session whatever the status of the decision fetched then. |
| KycSessions.AwardedThoughDeclined | api/src/services/kyc-session.service.ts:129-150 | A run from empty tables in which a session is attested and awarded on a declined decision. |
| KycSessions.UnapprovedAwardExactly | api/src/services/kyc-session.service.ts:129-150 | A webhook that runs alone awards on a decision that is not approved if and only if its event is approved, the session is awardable and the fetched decision is not approved; a poll never does. |
| KycSessions.AwardStepExactly | api/src/services/kyc-session.service.ts:129-193 | In any run a step leaves all awards approved if and only if they were and it is not the award of a handler holding a decision that is not approved; only a webhook's handler ever is. |
| KycSessions.ApprovedExactly | api/src/services/kyc-session.service.ts:129-193 | All awards of a run are approved if and only if none of its steps was such an award. |
| KycSessions.ApprovedWhenFetched | api/src/services/kyc-session.service.ts:141-149 | No such award is made, and no handler is about to make one, while the decisions fetched inside webhooks are approved. |
| KycSessions.HookStepsAreTheCall | api/src/services/kyc-session.service.ts:129-150 | The awaits of one webhook with nothing between them do what the call does. |
| KycSessions.PollStepsAreTheCall | api/src/services/kyc-session.service.ts:61-90 | The awaits of one poll with nothing between them do what the call does. |
| Otp.OtpService.HitBucket | api/src/repo/ratelimit.repo.ts:11-22 | Adds one to the counter of the window the time falls into and returns it. |
| Otp.OtpService.GetLatestActive | api/src/repo/otp.repo.ts:107-116 | Finds an active code of the email and purpose if there is one, and a latest one. |
| Otp.OtpService.Verify | api/src/services/otp.service.ts:155-177 | A verification that runs alone is `Verified` if and only if the latest active code of the email and purpose has an attempt left and the presented code hashes, with that email and the code's salt, to its stored hash. It counts one attempt, records one comparison within the limit, and consumes the code on success or on one attempt too many; nothing else changes. |
| Otp.OtpService.RequestCode | api/src/services/otp.service.ts:73-105 | A code is sent if and only if both counters stay within their limits, a registration has its draft and the row is new; each counter that the request counts for grows by one and no other; past the limits exactly the outstanding codes of the email and purpose are consumed. |
| Otp.RunKeepsBudget | api/src/services/otp.service.ts:179-191 | In every interleaving the codes issued for an email in one window, with the requests admitted and not yet done, stay within the limit and the counter. |
| Otp.IssuingBudget | api/src/services/otp.service.ts:73-105 | A half-open interval of one window's length sees at most twice the per-window limit of codes per email, by the time their requests began. |
| Otp.GuessBudget | api/src/services/otp.service.ts:155-191 | All comparisons ever made against those codes are at most twice the limit times the attempts allowed per code. |
| Otp.EveryWinIsEarned | api/src/services/otp.service.ts:155-177 | In every interleaving each recorded comparison says truly whether its presented code hashes to the stored hash of its code, and a code has at most as many successes as comparisons in which it does. |
| Otp.TryExactly | api/src/services/otp.service.ts:160-170 | One try counts one attempt and, within the limit, puts its handler in line to succeed if and only if the presented code hashes to the stored hash. |
| Otp.SecondSuccess | api/src/services/otp.service.ts:155-177 | A consumed code succeeds again if and only if the verification holds it past its comparison, or holds it before its comparison with the right code and an attempt left. |
| Otp.RacingVerifications | api/src/services/otp.service.ts:155-177 | Two verifications that both hold a code, present the right code and find two attempts left both succeed, whatever else the state is. |
| Otp.OneCodeSucceedsTwice | api/src/services/otp.service.ts:155-177 | A run from the start in which the one code issued succeeds twice. |
| Otp.ExclusiveRunsWinOnce | api/src/services/otp.service.ts:155-177 | When no verification reads a code another still holds, each code succeeds at most once. |
| Otp.VerifiedOnce | api/src/services/otp.service.ts:155-177 | A later call cannot pick a code that an earlier one verified or exhausted. |
| Otp.OneOutstandingCode | api/src/services/otp.service.ts:91-105 | A request that sends a code leaves it as the only unconsumed one of its email and purpose. |
| Otp.VerifyStepsAreTheCall | api/src/services/otp.service.ts:155-177 | The awaits of one verification with nothing between them do what the call does. |
| Otp.RequestStepsAreTheCall | api/src/services/otp.service.ts:73-105 | The awaits of one request with nothing between them do what the call does. |
| IdentityRead.ColonSplits | api/src/services/identity-read.service.ts:376-385 | The composite memo key is injective for ids without colons. |
| IdentityRead.ColonsCollide | api/src/services/identity-read.service.ts:376-385 | Two pairs of ids with colons that share a key. |
| IdentityRead.ReadResolution.ResolveAuthor | api/src/services/identity-read.service.ts:166-257 | From any memo state reached in the request, the memoised author equals the memo-free one, which `AuthorShows` describes on the stored account. |
| IdentityRead.AuthorShows | api/src/services/identity-read.service.ts:166-257 | A key's author shows the display name, handle and icon of its account, each in its place, if and only if the viewer is its owner or meets the setting that counts, and otherwise nothing but the stored or derived persona name. `isSelf`, the setting and the self hint go to the owner alone, the hint exactly if the setting is not public; tier, office, platform roles and media marks are the account's in either case. |
| IdentityRead.ReadResolution.ResolveMention | api/src/services/identity-read.service.ts:263-291 | The memoised mention equals the memo-free one, which `MentionShows` describes. |
| IdentityRead.MentionShows | api/src/services/identity-read.service.ts:263-291 | A mention shows nobody, the reserved label, the persona name, or the handle of the account, and says whether it is the viewer. |
| IdentityRead.ReadResolution.ProfileVisible | api/src/services/identity-read.service.ts:296-302 | The memoised profile visibility equals the memo-free one. |
| IdentityRead.ReadResolution.ThreadRevealed | api/src/services/identity-read.service.ts:309-314 | The memoised reveal equals the memo-free one. |
| IdentityRead.ReadResolution.EffectiveVisibility | api/src/services/identity-read.service.ts:376-385 | The memo of thread overrides answers override, else account default, and stays right for every other pair. |
| IdentityRead.ReadResolution.LinkOf | api/src/services/identity-read.service.ts:398-408 | The link memo answers what the store would, unlinkable keys included. |
| IdentityRead.ReadResolution.HomeDistricts | api/src/services/identity-read.service.ts:430-443 | The loop over jurisdictions collects each home seat once, in order. |
| IdentityRead.ReadResolution.FactsOf | api/src/services/identity-read.service.ts:410-460 | The facts memo answers what the store would. |
| IdentityRead.HomesAreSeats | api/src/services/identity-read.service.ts:422-443 | An official's home in a jurisdiction is the seat they represent, wherever they live; every home seat is listed once and nothing else is. |
| IdentityRead.LastSeatCounts | api/src/services/identity-read.service.ts:422-443 | The seat an official represents in a jurisdiction is that of the last membership there that gives one, and there is none if no membership does. |
| IdentityRead.AudiencesNest | api/src/services/identity-read.service.ts:319-339 | Whoever sees an author under a narrower audience sees them under the wider one; nobody sees an anonymous author, and an unverified viewer without office sees only public ones. |
| IdentityRead.RevealsExactly | api/src/services/identity-read.service.ts:296-339 | A thread reveals a user to themselves and to exactly those who meet every requirement of the setting that counts: a rank, an office, a seat shared with the user. A profile is visible to exactly those its own setting admits, its user, and everybody if the user holds an office. |
| IdentityRead.RevealPathsAgree | api/src/services/identity-read.service.ts:309-339 | An author resolves to a non-persona if and only if the thread reveals the key's owner; an unlinked key is always a persona. |
| IdentityRead.MentionRevealsExactly | api/src/services/identity-read.service.ts:263-291 | A mention links to a profile if and only if its user has a key in the thread and the thread reveals that user. |
| IdentityRead.PersonaHidesNames | api/src/services/identity-read.service.ts:244-257 | A persona has no handle, and renaming every account changes nothing in it. |
| IdentityRead.OverrideSevers | api/src/services/identity-read.service.ts:296-314 | A thread override wins in both directions; without one the profile is visible if and only if the thread reveals the user or the account holds an official role. |
| IdentityRead.GeoRungs | api/src/services/identity-read.service.ts:349-373 | Home means a seat shared by viewer, author and jurisdiction, at the rank that has one. Below it, a post about the whole jurisdiction affects exactly the authors with a seat there; any other post affects those with an affected seat, and the remaining authors with a seat are in the jurisdiction. |

## Left out

- Singletons.OneSingletonPerUserExactly: takes each signed call as one step, because the checks and the append may otherwise interleave with another create of the same user (`RacingVotes`); the interleaved form is about nullifiers (`StepClashesExactly`).
- EffectiveDating.DistrictIdBySlugAsOf: resolves equal dates by table order, which SQL leaves open.
- EffectiveDating.ReverseAgreesWithForward: with equal dates, holds because both queries of the model pick the same row.
- Otp.IssuingBudget: counts a code at the time its request began, which is also what its expiry and its window are computed from; the row's insertion can be later.
- AccountRuns.EveryRunIsSafe: takes passkey row ids as never reused, as random UUIDs are.
- IdentityRead.ReadResolution.ResolveAuthor: takes the parallel reads behind an account's facts as one frozen row, with handle, display name and icon type already normalised.
- `appendPlatformOps` and its admin attestation beyond the per-entity chain checks, and runs that mix the unsigned and signed paths for the singleton and tally facts.
- Redaction, feeds, public views, participant counts by tier and area: reads of the same folds.
- Point-in-polygon geometry, reprojection, shared borders and region labels: a district is a set of points, a union is membership in some member.
- The order in which parallel child resolutions reject: the model reports the first child's error.
- Geocoding of a proof of address, the tier shown in a poll's answer, and vendor formats.
- Mail delivery, registration drafts and handle holds beyond whether a draft is present.
- Blocks, settlement batches, anchors and Merkle proofs: a settled row is a row of the ledger map.
- HTTP routes, cookies, schemas, seed data and the web application.
