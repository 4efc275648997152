# Verified core of a database-governance backend

This project models the parts of the backend whose correctness depends on more than one function:
its small concurrent protocols, its column-lineage interpreter, its authorization and masking
pipelines, and the algorithmic kernels behind scheduling, splitting, rate limiting and DDL
pre-checks. Each component is specified by functions on values. Where the backend loops over slices
and maps or updates an object, a method with the same control flow is proved to compute that
function, and the theorems are about the function. Concurrent code is a step system: a theorem about
it is about every interleaving of any number of goroutines.

| files | component |
|---|---|
| `Text` | trimming, ASCII case folding, splitting, decimal numerals |
| `KeyedLock`, `CardSync` | the reference-counted per-ticket lock and the Lark card sync under it |
| `WorkerSlots` | the binlog-export worker's token channel and active set |
| `Lineage`, `LineageSetOps`, `LineageInline`, `LineageTrace`, `LineageOutcomes`, `LineageResolver` | MySQL column lineage: the resolver as functions, its laws, and the loops |
| `Authority`, `AuthGroupEffects`, `AuthGroupHandler` | delegated grants on auth groups: their bound, their effect, the handlers |
| `MaskingGrants`, `MaskingDecisions`, `MaskingRuntime` | sensitivity analysis, captured scopes, tokens, grants, masking in place |
| `QueryRegistry`, `RedisRunner` | the cancellation registry and the Redis ticket runner that uses it |
| `WorkflowRules`, `WorkflowResolution`, `WorkflowReports` | rule selection, preview numbering, approver and executor resolution |
| `RateLimiter` | the sliding-window limiter |
| `CronFields`, `CronSchedule`, `CronTexts` | cron parsing, its grammar, matching and the next time |
| `StatementSplitter`, `StatementText` | splitting SQL text at top-level semicolons |
| `DdlPrecheck`, `DdlNeeds`, `DdlPrecheckBatch`, `DdlBatchVerdicts` | clone plans, existence checks, the tables a statement needs, and the batch pre-check |

`dafny verify dfyconfig.toml` checks everything.

## What the code does not do

Some laws one would expect fail for the code as it is. The model keeps the code's behaviour; each
failure has a lemma with a concrete input, and the exact condition under which the law holds.

- The resolver accepts a qualifier for the table behind an alias, which SQL does not: the reference in
  `SELECT e.x AS y FROM e JOIN e AS m` is dropped and `SELECT e.*` gives the columns of `e` twice
  (`LineageTrace.SelfJoinDropsReference`, `LineageTrace.SelfJoinDoublesWildcard`). It also matches a column by the name
  of its base column, so a renamed column can hide another (`LineageTrace.RenamedColumnHidesReference`). A reference with one meaning
  in SQL is found if and only if neither disturbs it (`LineageTrace.ReferenceFoundIff`), and a qualified wildcard is right if
  and only if no column of such a source is taken (`LineageTrace.WildcardExactIff`).
- For the same reason a WITH query and its inlined form can differ: in
  `WITH c AS (SELECT x FROM t) SELECT c.x FROM c AS a JOIN u AS c` the reference is dropped, and found after inlining
  (`LineageInline.QualifierUnderAliasDiffers`). A reference resolves alike if and only if its matches through the expression's
  own name are none, or there are too many matches either way (`LineageInline.ReferenceAgreesIff`); for a select of plain
  columns that decides the query (`LineageInline.WithEqualsInlinedIff`).
- A set operation tracks its first operand only: the column of `SELECT * FROM t UNION SELECT * FROM u` depends on the column of `t` alone
  (`LineageOutcomes.UnionHidesColumn`). Its dependencies are all it can show if and only if no other operand adds a base column there
  (`LineageOutcomes.SetOperationTracksIff`).
- Deleting a group leaves its memberships by key behind, and a new group of the same key revives them
  (`AuthGroupEffects.DeletedMembershipRevives`). The members of a new group are exactly the listed users if and only if no current membership of
  anybody else is left under its key or ID (`AuthGroupEffects.OnlyListedAreMembersIff`).
- A Redis run can complete although it has read a row as failed: after sending, only a stop is looked for
  (`RedisRunner.FailedRowIsCompleted`). A completed run has seen no failed row if and only if no row it sent was
  read as failed afterwards (`RedisRunner.NoneSeenFailedIff`), that is, if nothing made its own row failed between claim and
  re-read (`RedisRunner.SeenFailedIff`, `RedisRunner.FailedMarkBetween`).
- A cron step can overflow: `59/9223372036854775807` in the minute field also selects minute 57
  (`CronSchedule.WrappedExpressionIsDue`). The parsed set is the listed one if and only if
  start + step stays within 64 bits for every item (`CronFields.UnionIsListedIff`); within the field's range it selects what it
  lists if and only if every value a wrapping step comes back to is listed too (`CronFields.FieldSelectsIff`).
- When month and weekday are both restricted, the days selected are not those of the INPUT FILES section of crontab in
  POSIX.1-2017 (`CronSchedule.MonthAndWeekdayDiffer`), unless every month is listed and the day of the month is restricted or
  every weekday is listed (`CronSchedule.PosixAgreesIff`).
- Splitting `a;b` gives the statements of `a` and then of `b` if and only if `a` ends outside quotes and
  parentheses, is not empty and does not end on a cut (`StatementSplitter.SplitDistributesIff`, `StatementSplitter.EmptyFirstStatement`).
- A decision with an origin that names no column is not unlocked by its own captured scopes
  (`MaskingGrants.UnnamedOriginStaysLocked`, `MaskingGrants.CaptureUnlocksIff`); the analysis never makes such a decision (`MaskingGrants.AnalysisIsSound`).
- Preview numbering leaves a rule without an ID when the counter wraps (`WorkflowRules.GreatestIdLeavesZero`); it gives distinct nonzero IDs if and only if the
  given ones are distinct and there is room below 2^64 (`WorkflowRules.NumberingIsDistinctIff`).
- A later cancel of the same query ID replaces an earlier pending one (`QueryRegistry.LaterCancelReplaces`);
  `QueryRegistry.CancelledIff` says exactly when a registration reports cancelled.
- The limiter lets too many hits through when the clock goes back (`RateLimiter.ClockMustNotGoBack`): it decides every call as the full
  history would, for every limit and window, if and only if the clock does not (`RateLimiter.AlwaysAlikeIff`).
- A Lark message can stay behind: when a review goes to an administrator and comes back, and the update in between was sent but not
  recorded, the next sync skips the card without failure (`CardSync.MessageStaysBehind`). After a sync without failure the message shows the state
  wanted if and only if its last update was recorded (`CardSync.ShownConvergesIff`).

One hypothesis the code relies on and its callers meet: the batch pre-check keeps checks by statement number, and the parser numbers statements
apart. Two statements of one number would mislead it (`DdlPrecheckBatch.RepeatedNumbersMislead`); every statement is validated against its own checks
if and only if those of one number have the same checks (`DdlPrecheckBatch.OwnChecksIff`).

## Model

| member | source | states |
|---|---|---|
| `KeyedLock.KeyedLockIsCorrect` | backend/internal/handler/lark_ticket_card.go:240-259 | In every reachable state at most one goroutine holds a ticket's lock, all registered for it share one lock object, `refs` is their number, and the table has an entry exactly while that is positive |
| `KeyedLock.SomeoneCanStep` | backend/internal/handler/lark_ticket_card.go:240-259 | While a goroutine is registered for a ticket, one registered for it can take its next step |
| `KeyedLock.StepKeepsInv` | backend/internal/handler/lark_ticket_card.go:240-259 | Every step of register, lock, unlock and deregister keeps the lock table's invariant |
| `KeyedLock.LockTable.Enter` | backend/internal/handler/lark_ticket_card.go:240-248 | The first critical section finds or creates the ticket's lock object and adds exactly one reference; no other entry changes |
| `KeyedLock.LockTable.Leave` | backend/internal/handler/lark_ticket_card.go:252-257 | The second critical section takes one reference back and deletes the entry exactly when it was the last |
| `CardSync.OlderStatusNeverOverwrites` | backend/internal/handler/lark_ticket_card.go:189-238 | Over every run of concurrent syncs and status changes, the status version a card records and its message shows never goes back |
| `CardSync.SyncConverges` | backend/internal/handler/lark_ticket_card.go:189-238 | A sync that ends without failure leaves the record of every card of its ticket at the state wanted for the status it read |
| `CardSync.ShownConvergesIff` | backend/internal/handler/lark_ticket_card.go:189-238 | After a sync that ends without failure the Lark message, shared or not, shows the state wanted if and only if its last update was recorded; if it was never updated, if and only if it was in step with the card to begin with |
| `CardSync.MessageStaysBehind` | backend/internal/handler/lark_ticket_card.go:189-238 | A run of two syncs in which the second ends without failure and the message still shows the state of the first |
| `CardSync.StepKeepsInv` | backend/internal/handler/lark_ticket_card.go:189-294 | Every lock operation, status read, card write and status change keeps the sync's invariant |
| `CardSync.SyncStage` | backend/internal/handler/lark_ticket_card.go:214-236 | The card loop updates each message at most once, exactly when some card of it is out of date, and records exactly the cards whose message was updated and whose record was saved |
| `CardSync.ReviewAlikeIff` | backend/internal/handler/lark_ticket_card.go:261-294 | A review card tells a ticket under review, a rejected and a withdrawn one apart, and shows every other status as approved |
| `CardSync.ExecutionAlikeIff` | backend/internal/handler/lark_ticket_card.go:261-294 | Which statuses an execution card shows alike, and that it shows nothing exactly for a ticket under review, withdrawn or with an administrator |
| `WorkerSlots.TokensAreAccountedFor` | backend/internal/binlogexport/worker.go:92-163 | In every reachable state tokens = active connections + goroutines between the two steps, at most two jobs run, and no two on one connection |
| `WorkerSlots.ReceiveNeverBlocks` | backend/internal/binlogexport/worker.go:142-163 | Neither receive from the token channel can block, not even the one under the mutex |
| `WorkerSlots.SomeoneCanStep` | backend/internal/binlogexport/worker.go:142-163 | While a goroutine owns a token, some goroutine can take its next step |
| `WorkerSlots.Worker.Acquire` | backend/internal/binlogexport/worker.go:142-156 | Succeeds exactly if a token is left and the connection is idle; a refused caller leaves channel and set as they were |
| `WorkerSlots.Worker.Release` | backend/internal/binlogexport/worker.go:158-163 | Returns the token and removes the connection, undoing one Acquire |
| `LineageSetOps.MergeAssociative` | backend/internal/handler/mysql_lineage.go:531-552 | Merging operands is associative, origins compared up to case and surrounding space |
| `LineageSetOps.MergedColumn` | backend/internal/handler/mysql_lineage.go:161-225 | The merged list has the length of the shortest operand; each column has the first operand's name and dependencies, and its origin exactly when all operands agree on it |
| `LineageSetOps.NestingIsIrrelevant` | backend/internal/handler/mysql_lineage.go:161-225 | However the operands of a set operation are nested, the columns, or the error, are the same |
| `LineageInline.Frame` | backend/internal/handler/mysql_lineage.go:96-118 | The lineage of a query depends only on the environment's entries for names it mentions |
| `LineageInline.WithEqualsInlined` | backend/internal/handler/mysql_lineage.go:96-118 | A query with WITH has the lineage of the query with the body inlined as derived tables under the use's alias and column names, through nested queries, joins and set operands |
| `LineageInline.WithListEqualsInlined` | backend/internal/handler/mysql_lineage.go:96-118 | So a whole WITH list can be inlined, leaving no WITH and the same lineage |
| `LineageInline.ReferenceAgreesIff` | backend/internal/handler/mysql_lineage.go:477-503 | With n matches through the expression's own name behind an alias and m others, a reference resolves alike before and after inlining if and only if n = 0, or m >= 2, or m = 0 and n >= 2 |
| `LineageInline.WithEqualsInlinedIff` | backend/internal/handler/mysql_lineage.go:96-159 | For a select of plain columns, WITH and inlined form have the same lineage if and only if every reference satisfies that |
| `LineageInline.FailingBodyFails` | backend/internal/handler/mysql_lineage.go:96-118 | An expression whose body does not resolve fails the query under its name, whether it is used or not |
| `LineageInline.InlineNodeLineage` | backend/internal/handler/mysql_lineage.go:299-400 | Inlining in a FROM clause keeps each source's columns, and its heading unless the use has an alias |
| `LineageInline.QualifierUnderAliasDiffers` | backend/internal/handler/mysql_lineage.go:477-503 | A valid query whose reference is dropped in the WITH form and found in the inlined one |
| `LineageTrace.LineageIsExact` | backend/internal/handler/mysql_lineage.go:96-159 | For traceable queries, traced by SQL's own scoping, each column's dependencies are exactly the base columns its references reach, and its origin is set if and only if there is exactly one |
| `LineageTrace.ReferenceFoundIff` | backend/internal/handler/mysql_lineage.go:477-503 | A reference with one meaning in SQL is resolved to it if and only if no other candidate reads a base column of its name and no column of a source SQL does not let it name matches; otherwise it is dropped |
| `LineageTrace.WildcardExactIff` | backend/internal/handler/mysql_lineage.go:402-424 | A qualified wildcard gives exactly SQL's columns if and only if no column of a source SQL does not let it stand for is taken |
| `LineageTrace.SelfJoinDropsReference` | backend/internal/handler/mysql_lineage.go:477-503 | The resolver on `SELECT e.x AS y FROM e JOIN e AS m`: no dependency, where SQL reads e.x |
| `LineageTrace.SelfJoinDoublesWildcard` | backend/internal/handler/mysql_lineage.go:402-424 | The resolver on `SELECT e.* FROM e JOIN e AS m`: the columns of e twice, where SQL gives them once |
| `LineageTrace.RenamedColumnHidesReference` | backend/internal/handler/mysql_lineage.go:477-503 | The resolver on `SELECT a FROM (SELECT x AS a, a AS b FROM t) s`: the valid reference is dropped |
| `LineageTrace.CollectExact` | backend/internal/handler/mysql_lineage.go:441-460 | The origins collected from an expression are exactly the traced base columns, each once |
| `LineageOutcomes.ResolvesIff` | backend/internal/handler/mysql_lineage.go:96-400 | A query resolves if and only if every table it names is in scope or loads, every qualified wildcard finds a source with columns, and no unsupported node or operand occurs, through WITH lists, nested queries, joins and operands |
| `LineageOutcomes.SetOperationIs` | backend/internal/handler/mysql_lineage.go:161-225 | A set operation whose leaves resolve has as many columns as the shortest leaf; each has the first leaf's name and dependencies, and its origin exactly where all leaves agree on it, however they are nested |
| `LineageOutcomes.SetOperationResolvesIff` | backend/internal/handler/mysql_lineage.go:161-225 | A set operation resolves if and only if every leaf is a select that resolves in the scope after the WITH list |
| `LineageOutcomes.SetOperationTracksIff` | backend/internal/handler/mysql_lineage.go:531-545 | For operands traced by SQL's scoping, the dependencies of a result column are all the base columns it can show if and only if no operand adds one to the first |
| `LineageOutcomes.UnionHidesColumn` | backend/internal/handler/mysql_lineage.go:531-545 | The resolver on `SELECT * FROM t UNION SELECT * FROM u`: the column of u is not tracked |
| `LineageResolver.CloneLineageMap` | backend/internal/handler/mysql_lineage.go:554-565 | The scope of a nested query is a new object with the parent's entries, and the parent is untouched |
| `LineageResolver.ApplyColumnAliases` | backend/internal/handler/mysql_lineage.go:517-529 | The loop gives the columns renamed position by position |
| `LineageResolver.MergeSetOperationColumns` | backend/internal/handler/mysql_lineage.go:531-545 | The loop gives the merge function whose laws are proved in LineageSetOps |
| `LineageResolver.ResolveColumnReference` | backend/internal/handler/mysql_lineage.go:477-503 | The search over sources and columns gives the unique match or none |
| `LineageResolver.CollectColumnExprOrigins` | backend/internal/handler/mysql_lineage.go:441-460 | The collecting loop with its seen set gives the first occurrences in order |
| `LineageResolver.ExpandWildcardField` | backend/internal/handler/mysql_lineage.go:402-424 | The wildcard loop gives the columns of the covered sources, or the error |
| `LineageResolver.ResolveFieldList` | backend/internal/handler/mysql_lineage.go:120-159 | The field loop gives the resolved columns in order or the first error |
| `LineageResolver.ResolveQuery` | backend/internal/handler/mysql_lineage.go:96-198 | The whole resolver computes the lineage function, leaves the parent environment unchanged, and succeeds exactly for the resolvable queries of LineageOutcomes.ResolvesIff; what it gives is said by LineageOutcomes.SetOperationIs and LineageTrace.LineageIsExact |
| `LineageResolver.ResolveSetOperand` | backend/internal/handler/mysql_lineage.go:200-225 | A set operand resolves as its function says, the parent environment unchanged |
| `LineageResolver.ResolveSources` | backend/internal/handler/mysql_lineage.go:253-400 | Joins, table references, derived tables and grouped joins resolve as their function says, the parent environment unchanged |
| `Authority.CoalitionCannotEscalate` | backend/internal/handler/security_guards.go:35-135 | Over every interleaving of auth-group calls by actors without all-permissions, nobody gains all permissions, and nobody holds a permission or connection that neither they nor an actor held at the start |
| `Authority.NothingNewIsHeld` | backend/internal/handler/auth_group.go:187-583 | The permission keys held by anyone and the connections in anyone's scope never grow |
| `Authority.AllowedIsBounded` | backend/internal/handler/security_guards.go:47-135 | Every write an accepted request will make stays within what the coalition held |
| `Authority.WriteKeepsInv` | backend/internal/handler/auth_group.go:187-583 | Every single write of an accepted call, done late and among others, keeps the bound |
| `AuthGroupEffects.ChangeEffect` | backend/internal/handler/auth_group.go:448-583 | On the store's own fields: a done delete leaves the group and its memberships by ID out, a done grant or removal leaves exactly the key or connection in or out; everything else is unchanged |
| `AuthGroupEffects.ChangeSucceedsIff` | backend/internal/handler/auth_group.go:448-583 | An allowed single change fails only for an unknown permission to add |
| `AuthGroupEffects.PatchEffect` | backend/internal/handler/auth_group.go:266-446 | With one group per key, a done patch leaves exactly the listed permissions and connections, exactly the listed non-zero users as members among existing users, and every other group and membership as it was |
| `AuthGroupEffects.PatchSucceedsIff` | backend/internal/handler/auth_group.go:266-446 | Its writes succeed if and only if the lists have no repetition and the permissions exist |
| `AuthGroupEffects.CreateEffect` | backend/internal/handler/auth_group.go:187-264 | A done create adds one ordinary group with exactly the listed key, permissions and connections, whose members are the listed users and those with a membership left behind; nothing else changes |
| `AuthGroupEffects.CreateSucceedsIff` | backend/internal/handler/auth_group.go:187-264 | Its writes succeed if and only if ID and key are unused, the lists have no repetition and the permissions exist |
| `AuthGroupEffects.OnlyListedAreMembersIff` | backend/internal/repository/auth_group.go:154-173 | The new group's members are exactly the listed users if and only if nobody else has a membership left under its key or ID |
| `AuthGroupEffects.DeletedMembershipRevives` | backend/internal/repository/auth_group.go:154-173 | A concrete store in which a membership by the key of a deleted group makes an unlisted user a member of the new one |
| `AuthGroupEffects.AdminIsAllowedIff` | backend/internal/handler/security_guards.go:35-135 | An actor with all permissions is refused only for a missing group, a protected one on delete, a blank key, connection 0 or an added user who does not exist |
| `AuthGroupEffects.OthersAreAllowedIff` | backend/internal/handler/security_guards.go:35-135 | Anybody else may make single changes exactly to ordinary groups, adding only what they hold, and delete exactly unprotected ones |
| `AuthGroupEffects.OthersMayCreateIff` | backend/internal/handler/auth_group.go:187-264 | Anybody else may create a group exactly if they hold everything listed |
| `AuthGroupEffects.OthersMayPatchIff` | backend/internal/handler/auth_group.go:266-446 | Anybody else may patch exactly ordinary groups, with contents they hold; members only when they hold all the group gives and only existing unprotected users come and go |
| `AuthGroupHandler.CallIsRun` | backend/internal/handler/auth_group.go:187-583 | What one allowed call leaves in the store is what a run of the step system leaves, so the bound covers the handlers |
| `AuthGroupHandler.WritesAreRun` | backend/internal/handler/auth_group.go:187-583 | The pending writes of a call, done in order up to the first failure, are steps of the system |
| `AuthGroupHandler.Handler.ListMayBeGranted` | backend/internal/handler/auth_group.go:187-446 | The early-return loops accept exactly the lists of permissions and connections all of which the actor may grant |
| `AuthGroupHandler.Handler.Create` | backend/internal/handler/auth_group.go:187-264 | Refuses with nothing changed unless allowed; otherwise performs exactly the listed writes, and when done leaves the group, contents and members of AuthGroupEffects.CreateEffect |
| `AuthGroupHandler.Handler.ReplaceUsers` | backend/internal/handler/auth_group.go:389-420 | The member diff adds exactly the new users and then removes those no longer listed |
| `AuthGroupHandler.Handler.Patch` | backend/internal/handler/auth_group.go:266-446 | Refuses with nothing changed unless allowed; otherwise performs exactly the listed writes, and when done leaves the contents and members of AuthGroupEffects.PatchEffect |
| `AuthGroupHandler.Handler.Change` | backend/internal/handler/auth_group.go:448-583 | Delete and the single grants and removals: refused without effect unless allowed; when done the group is gone, or the permission or connection is in or out, and nothing else changed |
| `MaskingGrants.CaptureRoundTrip` | backend/internal/handler/query_context_token.go:104-135 | Scopes captured from any decisions, turned into token claims and back, are unchanged |
| `MaskingGrants.CaptureUnlocksIff` | backend/internal/handler/masking_runtime.go:211-250 | Captured scopes grant a column index if and only if some decision for it has only origins that name a column |
| `MaskingGrants.CaptureUnlocksOthersIff` | backend/internal/handler/masking_runtime.go:211-250 | What one query's captured scopes unlock of another: exactly the columns with a decision all of whose origins have the column, and wherever it is named the table, schema and database, of an origin of the first |
| `MaskingGrants.UnnamedOriginStaysLocked` | backend/internal/handler/masking_runtime.go:211-250 | A concrete decision that its own captured scopes do not unlock |
| `MaskingGrants.GrantsAreMonotone` | backend/internal/handler/masking_runtime.go:211-250 | Further scopes never take a grant away |
| `MaskingGrants.AnalysisIsSound` | backend/internal/handler/masking_runtime.go:126-209 | Decisions come one per column, in order, with named origins, and a column gets one if and only if a dependency falls under a rule and is not exempt |
| `MaskingGrants.RulesLeftAre` | backend/internal/handler/masking_runtime.go:83-124 | The rules left to apply are those of decided columns without a grant |
| `MaskingGrants.ApprovedQueryIsUnmasked` | backend/internal/handler/masking_runtime.go:83-124 | Whatever a query returns, its captured scopes, sent through the token and active among any others, leave nothing to mask when it runs again |
| `MaskingGrants.CapturedEmptyIff` | backend/internal/handler/sql_editor_workflows.go:52-97 | No scope is captured exactly when no decision has an origin that names a column |
| `MaskingDecisions.AnalyzedIsRight` | backend/internal/handler/masking_runtime.go:126-209 | Each decision's rule carries its column's heading; it has the first origin's mode and configuration if the rules of all origins have one mode, and is the full mask without configuration if two differ. Its origins are those of the sensitive dependencies, each once up to case, the first of them first |
| `MaskingDecisions.MaskedColumnsAre` | backend/internal/handler/masking_runtime.go:83-124 | The columns left to mask are exactly the sensitive ones without a grant, each with the rule of its own decision |
| `MaskingDecisions.RuleLeftIs` | backend/internal/handler/masking_runtime.go:83-124 | The rule left for a column is that of its decision |
| `MaskingDecisions.LineageDecides` | backend/internal/handler/masking_runtime.go:126-209 | A column whose dependencies name table and column is decided if and only if one of them has a rule and is not on the whitelist in its database |
| `MaskingDecisions.OriginDecides` | backend/internal/handler/masking_runtime.go:310-356 | A column without dependencies whose origin is named goes by that origin |
| `MaskingDecisions.HeadingDecides` | backend/internal/handler/masking_runtime.go:310-356 | A column without dependencies and origin goes by the last two dotted parts of its heading, and is not decided if the last is blank |
| `MaskingDecisions.CapturedAre` | backend/internal/handler/sql_editor_workflows.go:52-97 | The scopes captured are exactly those of the origins that name a column, for the connection, with trimmed names and blank ones left out, each once |
| `MaskingDecisions.ClaimNames` | backend/internal/handler/query_context_token.go:104-115 | The claim of a captured scope carries its origin's trimmed names |
| `MaskingRuntime.BuildSQLScopeAnalysis` | backend/internal/handler/sql_editor_workflows.go:52-97 | The loops with their seen map give the captured scopes, each once |
| `MaskingRuntime.ScopeClaims` | backend/internal/handler/query_context_token.go:104-115 | The append loop gives the claims of the scopes |
| `MaskingRuntime.ClaimScopes` | backend/internal/handler/query_context_token.go:117-135 | The append loop gives the scopes of the claims that name a column |
| `MaskingRuntime.ActiveSensitiveAccessIndexes` | backend/internal/handler/masking_runtime.go:211-250 | The granted indexes are those of decisions all of whose origins a scope matches |
| `MaskingRuntime.DecideMaskRule` | backend/internal/handler/masking_runtime.go:264-292 | Under the column's heading, the first rule's mode and configuration if all modes are equal, the full mask without configuration if two differ, none without rules |
| `MaskingRuntime.AnalyzeSensitiveColumns` | backend/internal/handler/masking_runtime.go:126-209 | The nested loops give the analysis the theorems are about, with matching indexes |
| `MaskingRuntime.MaskColumns` | backend/internal/handler/masking_runtime.go:83-124 | Masks exactly the ruled columns in place, failing if and only if some cell cannot be masked |
| `MaskingRuntime.ApplyAnalyzedResult` | backend/internal/handler/masking_runtime.go:83-124 | Masks in place exactly the decided columns that are not granted |
| `QueryRegistry.QueriesAreTheLive` | backend/internal/handler/query.go:150-243 | After any run the query map holds exactly the registrations accepted and not removed, handed out or replaced since |
| `QueryRegistry.HandedOutIff` | backend/internal/handler/query.go:174-235 | A call hands out a registration if and only if it is live and the call targets it; `cancel` only for its owner |
| `QueryRegistry.HandedOutOnce` | backend/internal/handler/query.go:174-235 | No registration is handed out by two operations, nor twice by one |
| `QueryRegistry.PendingIsForSomebodyElse` | backend/internal/handler/query.go:150-220 | An ID in both maps has a pending canceller that is neither 0 nor the query's owner |
| `QueryRegistry.PendingAreTheUnsettled` | backend/internal/handler/query.go:150-243 | After any run the pending map holds exactly the cancels recorded and not replaced, consumed or expired since |
| `QueryRegistry.CancelledIff` | backend/internal/handler/query.go:150-163 | A registration reports cancelled if and only if an unsettled cancel for its user or for anybody is at most two minutes old |
| `QueryRegistry.CancelBeforeRegister` | backend/internal/handler/query.go:150-190 | After a cancel that came first, with no other cancel of the ID and no registration it is meant for between, the registration reports cancelled if and only if it comes within two minutes |
| `QueryRegistry.LaterCancelReplaces` | backend/internal/handler/query.go:174-190 | A concrete run in which a second cancel undoes the first |
| `QueryRegistry.Registry.PruneLocked` | backend/internal/handler/query.go:237-243 | Deletes exactly the pending cancels older than two minutes |
| `QueryRegistry.Registry.RegisterQuery` | backend/internal/handler/query.go:150-163 | The register step on the maps, including the blank-ID no-op |
| `QueryRegistry.Registry.RemoveQuery` | backend/internal/handler/query.go:165-172 | The remove step on the maps |
| `QueryRegistry.Registry.CancelQuery` | backend/internal/handler/query.go:174-190 | The cancel step on the maps |
| `QueryRegistry.Registry.CancelAnyQuery` | backend/internal/handler/query.go:192-204 | The cancelAny step on the maps |
| `QueryRegistry.Registry.CancelAnyQueryOrPending` | backend/internal/handler/query.go:206-220 | The cancelAnyOrPending step on the maps |
| `QueryRegistry.Registry.CancelAllQueries` | backend/internal/handler/query.go:222-235 | The cancelAll step: hands out a copy of all queries and empties the map |
| `RedisRunner.SentAtMostOnce` | backend/internal/handler/ticket_review.go:1646-1761 | Across any number of runners each row's command is sent at most once |
| `RedisRunner.SendsAreInOrder` | backend/internal/handler/ticket_review.go:1646-1761 | At every moment each runner has sent in list order, only after passing all earlier rows, and only after a registration that was not told of a cancel |
| `RedisRunner.EndedRunnerIsExplained` | backend/internal/handler/ticket_review.go:1646-1761 | A runner's result and sends are those of the loop; it completes if and only if it went past every row: none loaded or re-read as failed or stopped, and every row it won parsed, uncancelled, not stopped and answered without error |
| `RedisRunner.CompletedIff` | backend/internal/handler/ticket_review.go:1646-1761 | A run completes if and only if every row of the list was passed in that sense, and leaves the ticket alone if and only if it came to a pending row and found the ticket stopped |
| `RedisRunner.NoneSeenFailedIff` | backend/internal/handler/ticket_review.go:1646-1761 | A completed run has seen no row stopped, and none failed if and only if no row it sent was read as failed afterwards |
| `RedisRunner.SeenFailedIff` | backend/internal/handler/ticket_review.go:1646-1761 | Over every run: a completed runner has seen a failed row if and only if one of its re-read events after sending found its row failed |
| `RedisRunner.FailedMarkBetween` | backend/internal/handler/ticket_review.go:1646-1761 | Such an event is preceded, after the runner's claim, by one that made the row failed, and the row has been failed since |
| `RedisRunner.FailedRowIsCompleted` | backend/internal/handler/ticket_review.go:1646-1761 | A run of two runners in which a failed claim marks the row failed, the winner reads that, and its run completes |
| `RedisRunner.MarksMean` | backend/internal/handler/ticket_review.go:1646-1761 | A row is marked completed if and only if it was sent and passed; stopped if and only if it was won and cancelled before it was sent; failed if and only if the claim went wrong, it was won and does not parse, or it was answered with an error and not stopped meanwhile. Only the last row handled can be marked failed or stopped |
| `RedisRunner.SendsMean` | backend/internal/handler/ticket_review.go:1646-1761 | A command is sent if and only if its pending row was won on a ticket not stopped, parses and was not cancelled |
| `RedisRunner.StopComesFirst` | backend/internal/handler/ticket_review.go:1704-1725 | A stop request that reaches the registry first keeps the command from being sent for two minutes, unless another cancel or registration of the row interferes |
| `RedisRunner.RunnerStepKeepsInv` | backend/internal/handler/ticket_review.go:1646-1761 | Every step, with failing reads, lost writes and claims whose effect is unknown, keeps the invariant |
| `RedisRunner.ClaimKeeps` | backend/internal/repository/ticket.go:1211-1233 | The compare-and-set gives a row to at most one runner, for good |
| `RedisRunner.RunRows` | backend/internal/handler/ticket_review.go:1646-1761 | The loop's result, the commands it sends and the marks it writes are explained by what it was told |
| `WorkflowRules.MatchWorkflowRule` | backend/internal/handler/settings.go:851-880 | Finds a rule if and only if one fits; it names the connection if one that fits does, of those like it in that it names the sensitivity if one does, and of those like it in both it is least by priority, then ID |
| `WorkflowRules.SelectIsBest` | backend/internal/repository/settings.go:878-914 | The repository's matcher, whose loop is identical: none if none applies, else one that no applicable rule beats by score, priority and ID |
| `WorkflowRules.SelectedIsMostSpecific` | backend/internal/repository/settings.go:878-914 | The rule selected is the first in the list that names the connection if one that fits does, then the sensitivity if one like it does, then is least by priority and ID among those like it in both |
| `WorkflowRules.OrderIndependentIff` | backend/internal/handler/settings.go:851-880 | The selection is the same for every order of the rules if and only if no two different rules tie for the best |
| `WorkflowRules.DistinctIdsDecide` | backend/internal/handler/settings.go:851-880 | Distinct IDs exclude ties |
| `WorkflowRules.OnlySameScopeShadows` | backend/internal/handler/settings.go:263-303 | On its own scope an enabled rule is beaten only by a rule of identical ticket type, connection and sensitivity |
| `WorkflowRules.EffectiveIffLeast` | backend/internal/handler/settings.go:263-303 | With distinct IDs a rule is effective if and only if it is the least by (priority, ID) among the enabled rules of its scope, and shadowed if and only if one comes before it |
| `WorkflowRules.ExactlyOneEffective` | backend/internal/handler/settings.go:263-303 | Among the enabled rules of one scope exactly one is effective |
| `WorkflowRules.ConflictLoserIsShadowed` | backend/internal/handler/settings.go:927-935 | Of two enabled rules in conflict the one with the greater ID is shadowed |
| `WorkflowRules.ConflictIff` | backend/internal/handler/settings.go:927-935 | Two rules conflict if and only if they have one scope and exchanging their IDs exchanges which comes first |
| `WorkflowRules.NumberingIsDistinctIff` | backend/internal/handler/settings.go:882-898 | Numbering yields distinct nonzero IDs if and only if the given ones are distinct and there is room below 2^64 |
| `WorkflowRules.GreatestIdLeavesZero` | backend/internal/handler/settings.go:882-898 | A concrete list on which the counter wraps and a rule keeps the ID 0 |
| `WorkflowRules.NumberingKeepsRules` | backend/internal/handler/settings.go:882-898 | Only missing IDs are filled in; order and everything else is kept |
| `WorkflowRules.NewIdIs` | backend/internal/handler/settings.go:882-898 | While there is room the k-th rule without an ID gets the k-th number after the greatest given one |
| `WorkflowRules.WithWorkflowPreviewIds` | backend/internal/handler/settings.go:882-898 | The two loops number a copy in place, with 64-bit increment |
| `WorkflowResolution.EverybodyPlacedOnce` | backend/internal/handler/workflow_resolution.go:53-178 | Through matching, resolving and excluding, each member of the rule's groups is placed exactly once, as effective or as excluded, and nobody else is |
| `WorkflowResolution.EachMemberOnce` | backend/internal/handler/workflow_resolution.go:139-178 | Resolving groups places each listed member exactly once |
| `WorkflowResolution.EffectiveIff` | backend/internal/handler/workflow_resolution.go:139-178 | A member is effective if and only if the first entry found for it is active and holds the permission |
| `WorkflowResolution.SubmitterDoesNotAct` | backend/internal/handler/workflow_resolution.go:222-253 | The submitter is in neither effective list unless the bypass for that list applies, and then that list is unchanged |
| `WorkflowResolution.ErrorFreeIff` | backend/internal/handler/workflow_resolution.go:53-130 | No error if and only if a rule matched, some active, permitted member of its groups other than the submitter (unless bypassed) can approve where approval is enabled, and can execute where a manual executable ticket needs it |
| `WorkflowResolution.WithoutKeepsOrder` | backend/internal/handler/workflow_resolution.go:298-312 | What exclusion leaves is the input read at increasing positions |
| `WorkflowResolution.AllOthersKept` | backend/internal/handler/workflow_resolution.go:298-312 | The positions kept are exactly those of other users |
| `WorkflowResolution.ExcludeWorkflowUserId` | backend/internal/handler/workflow_resolution.go:298-312 | The in-place filter moves the kept IDs to the front, reports whether it excluded, and leaves the rest of the array as it was |
| `WorkflowResolution.ResolveWorkflowUsers` | backend/internal/handler/workflow_resolution.go:139-178 | The nested loops with the seen map give the effective and excluded lists and the empty groups |
| `WorkflowResolution.ResolveWorkflow` | backend/internal/handler/workflow_resolution.go:53-130 | Fills in the resolution object as specified, on every error path |
| `WorkflowResolution.Resolution.ExcludeSubmitter` | backend/internal/handler/workflow_resolution.go:222-253 | Changes the resolution in place as specified, keeping an earlier error |
| `WorkflowReports.PeopleAre` | backend/internal/handler/workflow_resolution.go:53-178 | The approvers, and for manual execution the executors, are exactly the members whose first entry is active and permitted, but for the submitter without a bypass; everybody else is reported under that entry's name as inactive or lacking the permission, and the submitter as such |
| `WorkflowReports.GroupsReported` | backend/internal/handler/workflow_resolution.go:53-178 | The rule is reported with its approval and execution mode, and of its groups exactly the ones without members |
| `WorkflowReports.ErrorIs` | backend/internal/handler/workflow_resolution.go:53-130 | No matching rule exactly if none fits; no approvers exactly if nobody eligible is left to approve, unless executors are lacking even with the submitter while approvers are not; otherwise no executors exactly if nobody eligible is left to execute |
| `WorkflowReports.AdminsNamedIff` | backend/internal/handler/workflow_resolution.go:53-195 | The active members of the group admin are named exactly if no rule fits or the people are lacking even with the submitter |
| `WorkflowReports.EmptyGroupsIff` | backend/internal/handler/workflow_resolution.go:139-178 | A group is reported missing exactly if it is listed and has no member |
| `WorkflowReports.ExcludedIff` | backend/internal/handler/workflow_resolution.go:139-178 | Who is left out by resolving, and for which reason |
| `RateLimiter.LimiterRefinesSlidingWindow` | backend/internal/handler/rate_limiter.go:31-55 | Over any calls on any keys with a clock that does not go back, a call is allowed if and only if fewer than `limit` allowed hits of its key lie in (now - window, now] |
| `RateLimiter.PruningRefinesFullHistory` | backend/internal/handler/rate_limiter.go:31-55 | The pruned history decides every next call as the full one does |
| `RateLimiter.EveryWindowHolds` | backend/internal/handler/rate_limiter.go:31-55 | Every interval of window length holds at most `limit` of the hits the limiter allowed |
| `RateLimiter.EveryWindowHoldsPerKey` | backend/internal/handler/rate_limiter.go:31-55 | The same per key, over any run of calls on any keys |
| `RateLimiter.AllowedIsLogged` | backend/internal/handler/rate_limiter.go:31-55 | The hits the limiter allows are those the full-history specification allows |
| `RateLimiter.AlwaysAlikeIff` | backend/internal/handler/rate_limiter.go:31-55 | The limiter decides every call as the full history would, for every limit and window, if and only if the clock does not go back |
| `RateLimiter.StorageIsBounded` | backend/internal/handler/rate_limiter.go:31-55 | Never more than `limit` hits are stored, for any clock |
| `RateLimiter.KeysDoNotInteract` | backend/internal/handler/rate_limiter.go:31-55 | What is stored for a key depends on the calls with that key only |
| `RateLimiter.ClockMustNotGoBack` | backend/internal/handler/rate_limiter.go:31-55 | A concrete run with a clock that goes back, in which one hit too many is allowed |
| `RateLimiter.Limiter.FilterInPlace` | backend/internal/handler/rate_limiter.go:39-46 | Filtering into the front of the same array keeps exactly the newer hits in order |
| `RateLimiter.Limiter.Allow` | backend/internal/handler/rate_limiter.go:31-55 | Decides and stores as specified, other keys untouched, also for unlimited calls |
| `CronFields.ParseCronField` | backend/internal/job/cron_schedule.go:84-142 | The loops, with 64-bit addition in the step, give the field's set and its `*` flag, or fail, as specified |
| `CronFields.InsertValues` | backend/internal/job/cron_schedule.go:137-139 | The value loop ends even when the step wraps, and inserts exactly the walked values |
| `CronFields.UnionIsListedIff` | backend/internal/job/cron_schedule.go:84-142 | The parsed set is the union of the start/end/step progressions if and only if no first step of an item wraps |
| `CronFields.ItemSelectsIff` | backend/internal/job/cron_schedule.go:84-142 | Within the field's range an item selects what it lists if and only if its step does not wrap or the wrapped value falls below the range |
| `CronFields.FieldSelectsIff` | backend/internal/job/cron_schedule.go:84-142 | Within its range a field selects what it lists if and only if every value in range that a wrapping step comes back to is listed by some item |
| `CronFields.WrappedStepSelectsMore` | backend/internal/job/cron_schedule.go:137-139 | A concrete item whose step wraps and selects a value it does not list |
| `CronFields.FieldRoundTrip` | backend/internal/job/cron_schedule.go:84-142 | Any list of items in range, written out, is parsed back as it was meant |
| `CronSchedule.ExpressionRoundTrip` | backend/internal/job/cron_schedule.go:44-82 | Any five fields, written out with blanks between, are parsed back as they were meant |
| `CronSchedule.ParseCronSchedule` | backend/internal/job/cron_schedule.go:44-82 | Accepts exactly five parsable fields and folds weekday 7 into 0 |
| `CronSchedule.DueIffSatisfied` | backend/internal/job/cron_schedule.go:144-160 | Where every field satisfies that, an expression is due exactly when its lists say so: 7 and 0 are both Sunday, and the day fields combine by OR exactly when neither has a `*` |
| `CronSchedule.WrappedExpressionIsDue` | backend/internal/job/cron_schedule.go:84-160 | An accepted expression that is due at a minute it does not list |
| `CronSchedule.FirstMatch` | backend/internal/job/cron_schedule.go:33-41 | The search returns the earliest matching minute after the input, or none if no minute up to the deadline matches |
| `CronSchedule.NextCronTime` | backend/internal/job/cron_schedule.go:25-42 | The earliest minute strictly after the input that the expression selects; an error only for a malformed expression or if no minute up to the deadline matches |
| `CronSchedule.PosixAgreesIff` | backend/internal/job/cron_schedule.go:144-160 | Any accepted text in POSIX form is due at all times as the INPUT FILES section of crontab in POSIX.1-2017 says if and only if month or weekday is `*`, or every month is listed and the day of the month is restricted or every weekday is listed |
| `CronSchedule.PosixAgreesOn` | backend/internal/job/cron_schedule.go:144-160 | On which dates the two rules agree |
| `CronSchedule.MonthAndWeekdayDiffer` | backend/internal/job/cron_schedule.go:144-160 | The text `* * * 6 1` is not due on a Monday in May, where POSIX makes it due |
| `CronTexts.ItemAcceptedIff` | backend/internal/job/cron_schedule.go:84-142 | An item's text is accepted, and as what, if and only if without surrounding space it is `*`, a number or two numbers with a dash, optionally with a slash and a positive step, within the field's range and in order |
| `CronTexts.FieldAcceptedIff` | backend/internal/job/cron_schedule.go:84-142 | A field is accepted if and only if every text between its commas is an item |
| `CronTexts.ExpressionAcceptedIff` | backend/internal/job/cron_schedule.go:44-82 | An expression is accepted if and only if it has five words and these are fields for 0-59, 0-23, 1-31, 1-12 and 0-7 |
| `CronTexts.DecimalReadIff` | backend/internal/job/cron_schedule.go:84-142 | A decimal number is read, as itself, if and only if it fits 64 bits |
| `StatementSplitter.SplitStatements` | backend/internal/handler/query.go:1678-1715 | The scanning loop gives the pieces between top-level semicolons, without an empty last one |
| `StatementSplitter.SplitIsLossless` | backend/internal/handler/query.go:1678-1715 | The statements joined by `;`, with one more when the text ends on a cut, are the text |
| `StatementSplitter.SplitIsStable` | backend/internal/handler/query.go:1678-1715 | Splitting a non-empty statement again returns only that statement |
| `StatementSplitter.SplitDistributesIff` | backend/internal/handler/query.go:1678-1715 | split(a;b) = split(a) ++ split(b) if and only if a ends outside quotes and parentheses, is not empty and does not end on a cut |
| `StatementSplitter.EmptyFirstStatement` | backend/internal/handler/query.go:1678-1715 | Nothing before a semicolon gives an empty statement, although the empty text gives none |
| `StatementSplitter.SplitOfJoin` | backend/internal/handler/query.go:1678-1715 | Any undivided statements, each but the last closed, joined by `;`, are what splitting gives back |
| `StatementText.SplitsIntoParts` | backend/internal/handler/query.go:1678-1715 | Texts built of plain characters, text in one of the three quotes and nested parentheses, with no semicolon outside these, are what splitting their join by `;` gives back, but for an empty last one |
| `StatementText.OpenQuoteSwallows` | backend/internal/handler/query.go:1678-1715 | After a quote that is never closed no semicolon cuts |
| `StatementText.OpenParenthesisSwallows` | backend/internal/handler/query.go:1678-1715 | After a parenthesis that is never closed no semicolon cuts |
| `DdlPrecheck.ChecksDemandRequired` | backend/internal/handler/ticket_review.go:975-1149 | For every table-scoped DDL kind and lists of any length the checks insist on exactly the tables the clone plan requires, in the same order, and both fail for the same statements |
| `DdlPrecheck.AcceptedIff` | backend/internal/handler/ticket_review.go:1222-1240 | A statement is accepted if and only if all names are given, every required table is present, and no table it must not find is |
| `DdlPrecheck.AcceptedIsCloneable` | backend/internal/handler/ticket_review.go:1222-1240 | Every required clone of an accepted statement is a table of the source |
| `DdlPrecheck.ReferencesDemanded` | backend/internal/handler/ticket_review.go:1271-1341 | The checks derived from foreign-key clones insist on exactly those clones |
| `DdlNeeds.RequiredIff` | backend/internal/handler/ticket_review.go:975-1025 | The plan requires a table if and only if the statement names it as the ALTER or TRUNCATE target, as the old table of a rename, in a DROP without IF EXISTS, as the LIKE table, or in a foreign key of a column option, a single option or a constraint; the database is the one written, or the selected one if that is blank |
| `DdlNeeds.CopiedIff` | backend/internal/handler/ticket_review.go:975-1025 | The plan copies exactly the tables the statement names, but for one that it creates |
| `DdlNeeds.ChecksIff` | backend/internal/handler/ticket_review.go:1093-1149 | The checks ask about exactly the tables the statement names, and forbid exactly the target of a CREATE without IF NOT EXISTS and the new table of each rename |
| `DdlNeeds.AcceptedByNeeds` | backend/internal/handler/ticket_review.go:1222-1240 | A statement is accepted if and only if every table it names has a name and a database, every one it needs is present, and none that it makes is |
| `DdlNeeds.ProblemIsReal` | backend/internal/handler/ticket_review.go:1222-1240 | The problem reported is one the statement has, with the name of the table concerned |
| `DdlPrecheckBatch.UnflaggedIsCloneable` | backend/internal/handler/ticket_review.go:1039-1082 | A statement with no recorded error has every table its clone plan requires in the source, also when the batch ends with the missing-database error |
| `DdlPrecheckBatch.BatchIsCloneable` | backend/internal/handler/ticket_review.go:1039-1082 | Every table the resulting plan requires exists, whatever the batch contains |
| `DdlPrecheckBatch.ProblemIff` | backend/internal/handler/ticket_review.go:1039-1082 | A statement has an error recorded if and only if its own checks fail, and that error; otherwise all its clones are planned |
| `DdlPrecheckBatch.OwnChecksIff` | backend/internal/handler/ticket_review.go:1039-1082 | Every statement is validated against its own checks if and only if statements of one number have the same checks |
| `DdlPrecheckBatch.RepeatedNumbersMislead` | backend/internal/handler/ticket_review.go:1039-1082 | With two statements of one number a missing table is planned as required |
| `DdlPrecheckBatch.ShadowCloneTables` | backend/internal/handler/ticket_review.go:975-1025 | The case analysis and append loops give the clone plan: it requires exactly the tables the statement needs and copies exactly those it uses |
| `DdlPrecheckBatch.TableExistenceChecks` | backend/internal/handler/ticket_review.go:1093-1149 | The case analysis and append loops give the checks: they demand exactly the tables the statement needs, forbid exactly those it makes and ask about exactly those it names |
| `DdlPrecheckBatch.AlterReferenceClones` | backend/internal/handler/ticket_review.go:1315-1341 | The loops over specs, columns and options collect every foreign-key table in order, and require a table exactly if an option of a column, the single option or a constraint refers to it |
| `DdlPrecheckBatch.LoadSourceMetadata` | backend/internal/handler/ticket_review.go:1151-1220 | The targets asked about are those of the checks, by trimmed name, and the selected database; the answer holds exactly the existing ones |
| `DdlPrecheckBatch.ValidateTableExistence` | backend/internal/handler/ticket_review.go:1222-1240 | Returns the first problem |
| `DdlPrecheckBatch.CloneTablesForValidStatements` | backend/internal/handler/ticket_review.go:1039-1082 | The batch pass over statements, metadata and maps keyed by statement number computes the specified plan, on every error path |
| `DdlBatchVerdicts.FlaggedIff` | backend/internal/handler/ticket_review.go:1039-1082 | In a batch of distinct numbers whose statements have their targets, a statement is flagged if and only if it names a table without name or database, needs one that is not in the catalog under a trimmed name, or makes one that is; whatever else the batch contains |
| `DdlBatchVerdicts.CopiedForBatch` | backend/internal/handler/ticket_review.go:1039-1082 | The tables copied are exactly those used by the statements that pass |
| `DdlBatchVerdicts.NoTargetIff` | backend/internal/handler/ticket_review.go:1039-1082 | The batch is given up if and only if some statement lacks its target |
| `DdlBatchVerdicts.SchemaFoundIff` | backend/internal/handler/ticket_review.go:1151-1220 | The selected database is found if and only if it exists and is written without surrounding space |

## Left out

- Strings are sequences of code points; invalid UTF-8, which the splitter would replace, does not occur. Case folding is ASCII only.
- Map keys built with a `|` or a NUL separator are tuples: identifiers without that character are assumed.
- Nil receivers and unconfigured repositories (early returns in the registry, the resolver and the runner) are not modelled.
- The lineage syntax tree holds what the resolver reads; recursive WITH, scalar subqueries, USING and NATURAL joins, and the column cache in front of the schema provider are not part of it.
- LineageTrace.LineageIsExact: excludes set operations and references to columns that read several base columns, whose full dependencies the resolver does not track. A grouped join is one source under its alias, in the trace as in the resolver.
- LineageOutcomes.SetOperationIs: supposes that no parenthesised operand list is empty; the parser gives none.
- LineageInline.WithEqualsInlined: needs the expression's name to clash with no other name, and no qualifier by that name where the use has an alias; the exact condition is given for selects of plain columns, not for compound expressions and wildcards, where a difference in one reference can be covered up by another.
- JWT signing, hashing and expiry of query-context tokens; what is proved is that their scope claims round-trip.
- HTTP status codes, request parsing, audit logging, notifications and user-existence lookups in the auth-group handlers; a database failure is a handler that stops early.
- The checks of an auth-group call are one atomic step of Authority (its writes are separate ones), while the handlers read users, groups and permissions one after the other.
- A "send" of RedisRunner is one call into the connection pool, which may itself try two variants of the connection.
- Users gain or lose nothing outside the auth-group handlers while a run of Authority lasts; other user administration is not a step of it.
- Creating and sending Lark cards; the sync starts from recorded cards. Panics and process crashes are not modelled. An update of a message that reports an error is taken to have had no effect.
- CardSync.ShownConvergesIff: assumes that cards sharing a message are of one stage.
- Polling, purging and generating exports in the binlog worker; only the lifetime of its slots is.
- Rows of Redis tickets are inserted but never deleted, and only an insert makes a row pending; connection lookup and parsing of command arguments are inputs.
- Time zones: the calendar fields of a point in time and the point one year later are parameters of CronSchedule.NextCronTime.
- Database faults while resolving workflow users, and the rule and user names in messages.
- The existence answer of MySQL is a set of tables; the collation of `information_schema` comparisons is not modelled, and executing DDL in the shadow database is not either.
- Online-DDL runners, login and MFA flows, dashboards, configuration and the frontend would add only easy members or rest on code outside the model.
