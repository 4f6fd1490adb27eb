# A verified model of angee's agent and query core

This project models the parts of angee that must keep their meaning under any input or any run,
and proves that they do:

- **Operator provisioning.** The five verbs that drive one agent row against an operator daemon
  which may fail at any call or refuse a create with a 409. `AgentRow.dfy` holds the row, its
  blockers and its transitions; `Provisioning.dfy` holds the verbs as a class whose daemon calls
  choose their outcome freely. Ghost state records what the daemon still holds for the agent, what
  of it the row was refused to record, and every call made and answered, with the row and what was
  held and recorded elsewhere at that moment; the verbs are specified by that log. A process that stopped at any call may be resumed.
- **The query language.** Raw filters are normalised (`FilterParsing.dfy`), checked against a
  resource and compiled (`FilterLanguage.dfy`, `FilterPipeline.dfy`, `WireConditions.dfy`,
  `WirePaths.dfy`), decoded back (`WireDecoding.dfy`, `WireRoundTrip.dfy`, `FilterRendering.dfy`),
  matched by `LIKE` patterns (`LikePatterns.dfy`) and ordered by an exact decimal comparison
  (`Decimals.dfy`). Conditions are read under an arbitrary assignment of true, false or unknown to
  (path, wire operator, operand); `RowTests.dfy` and `RowSelection.dfy` read them on rows, by the
  server's native comparisons and by the client's.
- **Sessions and turns.** Transactions under the session lock as a state machine over all
  interleavings with late and duplicate deliveries (`SessionMachine.dfy`), the row object that
  refines it, the worker's transcript sink, and the sessions of an in-process agent across its
  lifecycle (`AgentSessions.dfy`).
- **ACP v2 delivery.** Projection and snapshots of a transcript (`AcpProjection.dfy`) and the
  cursor-based delivery into a bracketed log, judged by an independent reader of that log
  (`AcpDelivery.dfy`).
- **Layered composition and live coalescing.** Dependency closure and overrides (`Layers.dfy`),
  menu resolution (`Menus.dfy`, `MenuTrees.dfy`) and debounced invalidation
  (`LiveInvalidation.dfy`).

`dafny verify dfyconfig.toml` checks the whole project.

## Results that qualify what the code or its documentation promises

- What is held is exactly what the provisioning row records and what it was refused to record: the
  instances that another agent recorded when their create returned and that were neither recorded
  nor confirmed gone since (`Agent.Drive`, `RefusedRecordIsForgotten`). When no create returns such
  an instance, held and recorded agree.
- Merging conditions is wrong on two `_not` clauses (`MergingTwoNegationsChangesMeaning`); the
  compiler never emits two, so compilation is right.
- The server and the client's row model agree on every row without null cells, and on others where
  no comparison of a null cell decides (`ServerSelectsWhatClientMatches`); for a single comparison
  the condition is exact (`TestSelectsExactlyWhen`). On null the client matches "not equal" and the
  server does not (`NullRowsDiffer`).
- A comparison means what it is compiled to exactly when its wire path does not start with a dot,
  has no Boolean key among its segments and no comparison key after the first
  (`PathMeansItselfExactlyWhen`).
- Over distinct wire paths, none continuing another, a compiled condition decodes exactly when every
  object below a relation key has one key and the Boolean operators and relation keys nest no deeper
  than 32 (`WireRoundTrip.RoundTrip`); two fields below one relation are an input that is refused
  (`SiblingPathsAreRefused`).
- The client's `like` answers as SQL `LIKE` does exactly for patterns that hold a special character,
  do not end in a dangling escape, and have no underscore between two literals except a single one
  beside a percent sign (`ClientLikeIsLikeExactlyWhen`): its dot is one UTF-16 unit.
  `ClientLikeDiffers` gives two inputs where it does not; on values without characters beyond the
  basic plane the first two conditions suffice (`ClientLikeOnPlainValues`).
- An accepted filter has one normal form, whatever the order of its keys, exactly when no object
  inside it has two keys that tie in the host's collation (`OneNormalFormExactlyWhen`).
- The menu cycle check walks while the id is truthy, so a cycle through the empty id passes it
  (`EmptyCycleIsMissed`); those are the only cycles that do (`CheckedExactlyWhen`). The nodes on and
  below such a cycle are then in neither tree (`Resolve`, `NothingVanishesExactlyWhen`), and when
  they are flattened and removed resolution does not return (`ReportNeverEnds`).

## Model

| member | source | states |
|---|---|---|
| Provisioning.Agent.CreateAndRecord | src/angee/agents/provisioning.py:73-96 | a returned instance is held and carried by the in-memory agent; the row records it, and it is no longer among the refused, unless another agent records it; a failed or refused create changes nothing |
| Provisioning.Agent.DestroyInstance | src/angee/agents/provisioning.py:525-547 | the call is noted with the row and what was made, refused and held at that moment, and only a confirmed destroy ends the holding |
| Provisioning.Agent.DestroyBoth | src/angee/agents/provisioning.py:525-547 | service before workspace; the workspace is left alone unless the service is confirmed gone; what is reported gone is what is no longer held |
| Provisioning.Agent.RollBack | src/angee/agents/provisioning.py:98-116 | only what this verb created is destroyed, service first, and the names reported gone are those confirmed |
| Provisioning.Agent.Fail | src/angee/agents/provisioning.py:451-522 | after a failure the row keeps its shape and ends in error; it records the conflict exactly for a 409 over an instance no other agent records (then nothing is undone), and otherwise the verb is rolled back; nothing held is forgotten but what was refused |
| Provisioning.Agent.RecordFailure | src/angee/agents/provisioning.py:499-522 | the row forgets exactly the names confirmed gone |
| AgentRow.FailKeeps | src/angee/agents/models.py:1560-1601 | saving a failure forgets exactly the recorded names confirmed gone, so nothing still held is forgotten and nothing becomes stale |
| AgentRow.CreateKeeps | src/angee/agents/models.py:1439-1466 | recording a created instance, or having its record refused, keeps everything held accounted for |
| AgentRow.DestroyKeeps | src/angee/agents/models.py:1468-1478 | ending a holding keeps everything else held accounted for, whether its name is forgotten or not |
| AgentRow.RecordKeeps | src/angee/agents/models.py:1410-1437 | recording adopted names leaves nothing forgotten and nothing stale |
| AgentRow.KeptMeans | src/angee/agents/models.py:1560-1601 | nothing forgotten means that held lies between the refused and the recorded with the refused; with nothing stale it is exactly both |
| AgentRow.OneWayOn | src/angee/agents/models.py:1215-1266 | a configured row admits exactly one way on, or none exactly while another verb is under way, while it runs in process, or when its workspace takes no service |
| AgentRow.TeardownIsAlwaysOpen | src/angee/agents/models.py:1268-1278 | without its configuration a row admits no verb that renders or adopts; teardown is refused only to a blank row that was never provisioned or is torn down |
| Provisioning.Agent.RenderService | src/angee/agents/provisioning.py:574-604 | on success exactly the rendered service is added to the row and to what is held, and starting it was the last call; otherwise the failure names what the calls showed: the 409, the refused record, or neither |
| Provisioning.Agent.RenderAgent | src/angee/agents/provisioning.py:550-571 | rendered exactly when every call succeeded and every record was accepted; then the row records what was made; nothing is destroyed |
| Provisioning.Agent.RenderOrFail | src/angee/agents/provisioning.py:183-220 | ends running with exactly what was made, or in error with everything made rolled back, still recorded, refused, or kept beside a recorded conflict; the recorded conflict is exactly the instance of a 409 that no other agent recorded |
| Provisioning.Agent.InspectConflict | src/angee/agents/provisioning.py:410-448 | asks for the one workspace the conflict involves, if there is one; the verdict is what its answer says: unreadable, gone, verified exactly when the report shows the instance to be the agent's own, else refused |
| AgentRow.OwnExactlyWhen | src/angee/agents/models.py:1344-1390 | the checks pass exactly when a conflicting workspace has the identity, a conflicting service mounts its workspace, no more services mount it than the runtime renders, and nothing of it is recorded by another agent or differs from what this one records |
| Provisioning.VerifiedFits | src/angee/agents/models.py:1318-1390 | a verified instance goes under its own name where nothing is recorded, with at most the service a runtime may have, which for a conflicting service is that service |
| Provisioning.Agent.Provision | src/angee/agents/provisioning.py:183-220 | refused without a call unless eligible; nothing is created before the render was prepared; on success the row records exactly the new instances; the row ends with a conflict exactly when a create was answered 409 over an instance nobody else recorded, and it names that instance; what it leaves unrecorded was created while another agent recorded it |
| Provisioning.Agent.Adopt | src/angee/agents/provisioning.py:223-275 | creates and destroys nothing and overwrites no recorded name; records the inspected workspace and the service mounting it, and only those, exactly when the one status read showed them to be the agent's own and nobody else recorded them since; on success the service was reported running or started |
| Provisioning.Agent.Replace | src/angee/agents/provisioning.py:278-301 | an instance judged unreadable or foreign by the one status read made first is refused with nothing destroyed and nothing changed; on success the agent runs with no conflict and a started service; only what another agent recorded when it was created is left unrecorded |
| Provisioning.Agent.Reprovision | src/angee/agents/provisioning.py:304-336 | destroys services only and keeps the workspace; nothing is created before the render was prepared; on success the held set swaps the old service for the new, started one; a conflict is recorded exactly for a 409 over a service nobody else recorded |
| Provisioning.Agent.DestroyService | src/angee/agents/provisioning.py:323-327 | the row forgets its service exactly when the destroy was confirmed |
| Provisioning.Agent.Deprovision | src/angee/agents/provisioning.py:339-407 | from any row, also one a stopped verb left in progress: what is destroyed is recorded or was shown by the one status read to be the agent's own; it succeeds exactly when every call does and nobody else records what is claimed, and then the row is blank and all of that was confirmed destroyed; on failure the row still records whatever was not confirmed gone |
| Provisioning.Agent.Resume | src/angee/agents/models.py:1268-1278 | a process that stopped at any call of a safe log, before it or after a reply, leaves a row from which every verb can go on |
| Provisioning.Agent.TearDown | src/angee/agents/provisioning.py:366-387 | the verified instance is recorded first; success exactly when every call succeeded, and then all of it was confirmed destroyed |
| Provisioning.Agent.DestroyRecorded | src/angee/agents/provisioning.py:374-387 | the names left in the row are those recorded before less those confirmed gone, and none on success |
| Provisioning.Agent.Rename | src/angee/agents/models.py:1068-1076 | a rename clears a workspace conflict and never a recorded name |
| Provisioning.Agent.Drive | src/angee/agents/provisioning.py:138-387 | over every sequence of verbs and daemon answers, also after a stop, every destroy was safe and what is held and refused is exactly what the log of the run leaves held and refused; from a row at rest held is exactly recorded and refused, and exactly recorded when no create ever returned what another agent recorded |
| Provisioning.RefusedByCreates | src/angee/agents/provisioning.py:73-96 | folding a log, nothing becomes refused but what a create returned while another agent recorded it |
| Provisioning.SafeLogSparesOthers | src/angee/agents/models.py:1318-1390 | every destroy in a safe log targets a recorded or just-made name, spares instances recorded by others and takes no workspace under a held service; at every call the row has its shape and nothing held is forgotten |
| Provisioning.ForgottenExactlyWhenRecordedElsewhere | src/angee/agents/models.py:1560-1601 | for one create and one failed verb on the row functions: the row records what was made and not confirmed gone exactly when no other agent recorded it |
| Provisioning.RefusedRecordIsForgotten | src/angee/agents/models.py:1560-1601 | a concrete row that forgets an instance it created |
| SessionMachine.StepKeeps | src/angee/agents/models.py:1972-2139 | every transaction keeps all session invariants |
| SessionMachine.RunsKeepInv | src/angee/agents/models.py:1972-2139 | in every run: at most one active turn, work that waits has a delivery on its way, claims in strictly increasing index, each turn settled once, usage the sum over turns, replay state of the highest completed turn |
| SessionMachine.RunsKeepOutcomes | src/angee/agents/models.py:2102-2139 | in every run a settled turn keeps the status and the usage of the outcome that settled it |
| SessionMachine.PostAppends | src/angee/agents/models.py:1972-2008 | an accepted post adds one last turn, pending and without usage, and changes nothing else |
| SessionMachine.PostedIsAttended | src/angee/agents/models.py:1972-2008 | in every run a posted turn waits, or was claimed and is active or settled, until it is cancelled or the session closed |
| SessionMachine.NextDeliveryClaims | src/angee/agents/models.py:2069-2100 | with nothing active and nothing waiting before it, a waiting turn has a delivery on its way and the next one claims exactly it |
| SessionMachine.QueueDrains | src/angee/agents/models.py:2069-2139 | from every reachable open session without an active turn, deliveries worked to their end claim the waiting turns in order, settle each with its own outcome and leave nothing waiting |
| SessionMachine.StatusProjectsActivity | src/angee/agents/models.py:2141-2192 | running or awaiting approval exactly while a turn is active, in every run |
| SessionMachine.ClosedForever | src/angee/agents/models.py:2010-2028 | a closed session never changes again, whatever arrives |
| SessionMachine.SettlingKeeps | src/angee/agents/models.py:2102-2133 | settling by any worker, however late, keeps all invariants |
| SessionMachine.DeliverKeeps | src/angee/agents/sessions.py:56-99 | a delivery, useful or not, keeps all invariants, no lost work included |
| SessionMachine.CancelKeeps | src/angee/agents/models.py:2030-2055 | cancelling any turn keeps all invariants |
| AgentSessions.AgentSession.PostTurn | src/angee/agents/models.py:1972-2008 | accepted exactly on an open session that waits for no approval, of an agent that can chat: adds one last pending turn without usage and changes nothing else; a refused post changes nothing |
| AgentSessions.AgentSession.ClaimTurn | src/angee/agents/models.py:2069-2100 | refines Claim: the oldest pending turn runs and the session is busy, never over an active turn; an agent that cannot chat fails it at once |
| AgentSessions.AgentSession.SettleTurn | src/angee/agents/models.py:2102-2139 | refines Settle: a still-running turn gets the outcome's status and usage, the usage is added to the session's key by key, success frees the session and leaves its state, failure marks it; nothing else changes; asks for a delivery exactly when queued work remains |
| AgentSessions.AgentSession.CancelTurn | src/angee/agents/models.py:2030-2055 | refines Cancel: the open turn is cancelled and no other; the session becomes idle when the turn was active and it is open, else it stays as it was; asks for a delivery exactly when queued work remains |
| AgentSessions.AgentSession.CancelActiveTurn | src/angee/agents/models.py:2057-2067 | cancels the one active turn, if any, and no other |
| AgentSessions.AgentSession.CloseSession | src/angee/agents/models.py:2010-2028 | refines Close: every open turn is cancelled with its usage kept, the others are untouched, and the session is closed |
| AgentSessions.AddUsage | src/angee/agents/models.py:2117-2125 | adds every spent key to the total, key by key |
| AgentSessions.TurnUpdateSink.Flush | src/angee/agents/sessions.py:46-53 | nothing emitted before a stop is lost, and a turn settled by someone else takes no more |
| AgentSessions.TurnUpdateSink.Emit | src/angee/agents/sessions.py:41-44 | the stored transcript stays a prefix of what was emitted |
| InProcessAgents.NextKeepsSafe | src/angee/agents/provisioning.py:390-407 | every transaction of the agent or its sessions keeps the safety invariant |
| InProcessAgents.StoppedAgentIsQuiet | src/angee/agents/models.py:1863-1895 | in every interleaving an agent that is not running has only closed sessions with no open turn |
| InProcessAgents.TransactionsWork | src/angee/agents/models.py:1863-1895 | in every interleaving a row at rest provisions to a running one, a running one starts idle sessions and queues what is posted, and teardown leaves a blank stopped row with every open turn cancelled and settled turns as they were |
| AcpProjection.ProjectUpdates | src/angee/agents/acp_server.py:609-629 | each message or thought chunk goes, with its text, to the part of its kind that starts where its run of chunks does, each tool update to its own tool with its fields, and anything else passes |
| AcpProjection.OnePartExactlyWhen | src/angee/agents/acp_server.py:609-629 | two pieces of text go to one part exactly when every update from the one to the other is text of their kind |
| AcpProjection.ProjectPrefix | src/angee/agents/acp_server.py:609-629 | projection is prefix-stable: a longer transcript never renames a part |
| AcpProjection.SnapshotUpdates | src/angee/agents/acp_server.py:656-674 | the loop upserts every projected part in order of first arrival |
| AcpProjection.SnapshotAgreesWithStreaming | src/angee/agents/acp_server.py:580-583 | a snapshot of any prefix followed by the live suffix leaves the client with the same parts, texts, tool fields and order as streaming everything |
| AcpDelivery.BracketsNeverOverlap | src/angee/agents/acp_server.py:559-597 | in an accepted log each bracket is closed by its own turn before the next opens, in index order |
| AcpDelivery.NothingAfterSettlement | src/angee/agents/acp_server.py:559-597 | in an accepted log nothing about a turn follows its settlement |
| AcpDelivery.PositionsAreContiguous | src/angee/agents/acp_server.py:580-584 | in an accepted log, when a position of a turn is sent every lower one was sent before and it was not |
| AcpDelivery.ReachedWasSent | src/angee/agents/acp_server.py:580-584 | every position below the one an accepted log reached in a turn was sent, by itself or in a summary |
| AcpDelivery.OnlyEchoed | src/angee/agents/acp_server.py:499-524 | a turn whose bracket never opened has nothing but its prompt in the log |
| AcpDelivery.LateTurnCannotOpen | src/angee/agents/acp_server.py:568-579 | once a later turn was opened the bracket of an earlier one cannot open, which is why turns must be observed in index order |
| AcpDelivery.SettleKeeps | src/angee/agents/acp_server.py:585-597 | settling keeps the account in agreement with the log only when the row was sent to its end |
| AcpDelivery.AgreesIsComplete | src/angee/agents/acp_server.py:559-597 | an account in agreement with its log sent every position of the last row of every turn it settled, and nothing but the prompt of a turn held back |
| AcpDelivery.SparesMeans | src/angee/agents/acp_server.py:509-524 | a log that spares the waiting turns sends nothing of them but their prompt echo |
| AcpDelivery.Attachment.Observe | src/angee/agents/acp_server.py:87-91 | a row is noted unless its turn was already settled here |
| AcpDelivery.Attachment.SendRest | src/angee/agents/acp_server.py:580-584 | sends exactly the positions beyond the cursor, in order, or one summary of them |
| AcpDelivery.Attachment.Conclude | src/angee/agents/acp_server.py:585-597 | once all of the row was sent, a finished turn is told its error if it failed and then its settlement, and leaves the pending rows |
| AcpDelivery.Attachment.DrainOne | src/angee/agents/acp_server.py:568-597 | a finished turn is settled at the end of its row; an unfinished one keeps its bracket open at the end of its row |
| AcpDelivery.Attachment.Drain | src/angee/agents/acp_server.py:559-597 | every turn that leaves the pending rows was settled with everything its row held; the earliest one left waits for its acknowledgment or is fully sent; unacknowledged turns are spared; the log stays accepted |
| AcpDelivery.Attachment.AcceptPrompt | src/angee/agents/acp_server.py:499-504 | sends the prompt echo only; the row waits and its turn is held back |
| AcpDelivery.Attachment.Acknowledge | src/angee/agents/acp_server.py:509-524 | releases exactly the acknowledged turn and drains update by update, settling turns with everything their rows held and keeping every other row; otherwise nothing changes |
| AcpDelivery.Attachment.Deliver | src/angee/agents/acp_server.py:551-557 | the reported row waits or was sent to its end and settled, unless its turn was settled before; every other row is kept or settled with everything it held; rows are streamed, never summarised; nothing is sent of an unacknowledged turn but its prompt |
| AcpDelivery.Attachment.Restore | src/angee/agents/acp_server.py:526-549 | after attaching or replaying every row to be followed waits or was sent to its end and settled, every pending prompt was echoed, and exactly the held-back turns stay held back with nothing but their prompt sent; a bracket opened by attaching starts with a summary, one opened by a replay does not; a client that attached with nothing pending was told some state, idleness once and only when it was told no other |
| AcpDelivery.Attachment.Drive | src/angee/agents/acp_server.py:499-597 | a run steps through accounts that each arrival takes to the next: the rows last observed are those that arrived, at every point the log of the epoch is accepted, every position of every turn settled in it was sent, nothing but its prompt was sent of a turn held back, and the earliest pending turn waits for its acknowledgment or is sent to the end of its row |
| AcpDelivery.LatestIsDelivered | src/angee/agents/acp_server.py:559-597 | in an account that agrees with its log the row last observed of each turn waits, or all of it was sent and its turn settled |
| AcpDelivery.ArrivedIsDelivered | src/angee/agents/acp_server.py:551-597 | over every run, a row that arrived in order waits or was sent to its end and settled, until the next arrival about its turn; when it is the earliest and not held back, its bracket is open at the end of its row |
| FilterParsing.NormaliseTwice | packages/metadata/src/filter.ts:183-204 | normalising is idempotent, and its results are exactly the filters it leaves alone |
| FilterParsing.NormaliseMeansTheSame | packages/metadata/src/filter.ts:183-204 | writing out shorthands, wrapping single branches and sorting keys does not change what a filter says |
| FilterParsing.ShorthandSays | packages/metadata/src/filter.ts:191-201 | null under a field says that it is null, a list that it is among its items, a scalar that it equals it, an object each of its comparisons |
| FilterParsing.KeyOrderDoesNotMatter | packages/metadata/src/filter.ts:183-213 | two spellings of a filter no object of which has two tying keys, differing in key order at any depth, have one normal form or are both refused |
| FilterParsing.SortStable | packages/metadata/src/filter.ts:186-186 | entries with tied keys keep their order in the rebuilt object |
| FilterParsing.Respell | packages/metadata/src/filter.ts:183-213 | an accepted filter with two tying keys in one object has another spelling with another normal form |
| FilterParsing.TiedKeysMatter | packages/metadata/src/filter.ts:183-213 | when two distinct keys tie, two spellings of one filter have two normal forms |
| FilterParsing.OneNormalFormExactlyWhen | packages/metadata/src/filter.ts:183-213 | an accepted filter has one normal form, whatever the order of its keys, exactly when no object inside it has two keys that tie |
| FilterPipeline.ParseFilter | packages/metadata/src/filter.ts:183-204 | the sorted loop computes the normal form, or refuses, as the definition by recursion does |
| FilterPipeline.ParseLookup | packages/metadata/src/filter.ts:193-201 | the comparisons of one field in key order, refused when there are none or one is unknown |
| FilterPipeline.ResolveMeans | packages/metadata/src/query.ts:357-383 | checking against the declared fields keeps what the filter says |
| FilterPipeline.ResolvedIsValid | packages/metadata/src/query.ts:357-383 | what is accepted has unique keys, declared fields, supported operators and canonical operands |
| RowSelection.AcceptedExactlyWhen | packages/metadata/src/query.ts:357-383 | a raw filter is accepted exactly when it is built of branches, negations and declared fields with comparisons they support and validate, shorthands included |
| FilterPipeline.AcceptedFilterMeansRaw | packages/metadata/src/query.ts:153-155 | an accepted raw filter becomes a valid filter that says the same |
| FilterPipeline.CompiledMeansRaw | packages/metadata/src/query.ts:203-207 | the condition compiled from raw filters is true exactly when each of them, as written, is, whatever each comparison is |
| FilterLanguage.And | packages/metadata/src/filter.ts:62-75 | the loop computes the conjunction function |
| FilterLanguage.AbsorbsExactlyWhen | packages/metadata/src/filter.ts:62-75 | the keys of one filter join the other exactly when the two agree on every shared key, and then every clause of both is there |
| FilterLanguage.ConjoinMeansBoth | packages/metadata/src/filter.ts:62-75 | the conjunction means both filters under every reading |
| FilterLanguage.ConjoinValid | packages/metadata/src/filter.ts:62-75 | the conjunction of valid filters is valid |
| WireConditions.OperandRoundTrip | packages/metadata/src/query.ts:620-636 | every text operand of every operator is recovered from the wire |
| WireConditions.WritePath | packages/metadata/src/query.ts:590-598 | nests a value below every segment of its path |
| WireConditions.MergeConditionsLoop | packages/metadata/src/query.ts:599-610 | the loop computes the merge function, falling back to an explicit conjunction |
| WireConditions.MergeMeansAll | packages/metadata/src/query.ts:599-610 | merging means the conjunction when at most one clause is a negation |
| WireConditions.MergingTwoNegationsChangesMeaning | packages/metadata/src/query.ts:599-610 | two negations merge into something weaker |
| WireConditions.WhereMeans | packages/metadata/src/query.ts:436-452 | the compiled condition of a valid filter over proper wire paths has its truth value whatever each comparison is: true, false or unknown |
| WireConditions.TrueIsNotFalse | packages/metadata/src/query.ts:436-452 | where no comparison is both true and false, no condition is |
| WirePaths.PathMeansItselfExactlyWhen | packages/metadata/src/query.ts:590-598 | the comparisons of a field mean what they are compiled to, under every truth assignment, exactly when its wire path is proper |
| WireConditions.CompileWhere | packages/metadata/src/query.ts:436-452 | the loop computes the compiled condition |
| WireConditions.HasuraRootMeans | packages/metadata/src/query.ts:611-619 | the explicit root conjunction means the implicit one |
| WireConditions.ToWhereMeansAll | packages/metadata/src/query.ts:203-207 | the whole condition is true, or not false, exactly when every filter is, read as the client evaluates it (lines 337-351) |
| RowTests.ComparesAlike | packages/metadata/src/query.ts:36-45 | on a value that is not null, the native comparison of the wire operator and operand sent is the client's own comparison, for every operator the client runs |
| RowTests.TestSelectsExactlyWhen | packages/metadata/src/query.ts:665-730 | over all rows a comparison selects what the client matches exactly when it is not one the client takes to hold of null, and its negation exactly when it is |
| RowTests.ServerSelectsWhatClientMatches | packages/metadata/src/query.ts:336-352 | on any row whose null cells are only compared where the client answers as the server must, the server selects by the compiled condition exactly what the client matches |
| RowTests.NoNullsSelected | packages/metadata/src/query.ts:336-352 | on a row without null cells the server selects by the compiled condition exactly what the client matches |
| RowTests.NullRowsDiffer | packages/metadata/src/query.ts:681-682 | on a null cell the client matches not-equal and the negation of equal, and the server selects the row for neither |
| RowSelection.AsNamed | packages/metadata/src/query.ts:675-730 | the client's checks by operator name make each operator's comparison |
| RowSelection.SelectsAsWritten | packages/metadata/src/query.ts:336-352 | from end to end, by the names of fields and operators: the server selects a row by what accepted raw filters compile to exactly when each of them, as written, says so of the row to the client |
| WireDecoding.DecodeLoop | packages/metadata/src/query.ts:213-256 | the decoding loop computes the decoding function |
| FilterRendering.RenderedParses | packages/metadata/src/query.ts:153-155 | a valid filter, written out and parsed against the resource, is accepted and says the same |
| FilterRendering.FromConditionMeans | packages/metadata/src/query.ts:212-258 | the decoder with its final parse accepts exactly what its first half does, and says the same |
| FilterRendering.WholeRoundTrip | packages/metadata/src/query.ts:203-258 | the round trip through compiler and whole decoder: accepted exactly when narrow and within the depth limit, and then equivalent under every truth assignment |
| WireDecoding.DecodeSound | packages/metadata/src/query.ts:212-258 | whatever is accepted is decoded to a filter with the condition's meaning, under every assignment that reads its comparisons as their decoded forms |
| WireDecoding.CanonicalReadsAlike | packages/metadata/src/query.ts:240-254 | a condition with canonical operands is read so under every truth assignment |
| WireDecoding.DecodeValid | packages/metadata/src/query.ts:212-258 | whatever is decoded is a valid filter |
| WireDecoding.ReencodingIsEquivalent | packages/metadata/src/query.ts:212-258 | whenever a condition with canonical operands is accepted, encoding what was decoded is equivalent under every truth assignment |
| WireDecoding.ReencodingReadAlike | packages/metadata/src/query.ts:212-258 | with other operands it is equivalent under the assignments that read each as its canonical form |
| WireRoundTrip.RoundTrip | packages/metadata/src/query.ts:203-258 | over distinct wire paths, none continuing another, a compiled condition decodes exactly when it is narrow and nests at most 32 deep, and then to an equivalent filter under every truth assignment |
| WireRoundTrip.UndottedRoundTrip | packages/metadata/src/query.ts:203-258 | over undotted wire names only the depth limit refuses |
| WireRoundTrip.ShapedDecodes | packages/metadata/src/query.ts:212-258 | the decoder accepts a shaped condition exactly when it is narrow and its nesting fits under the limit |
| WireRoundTrip.TestDecodes | packages/metadata/src/query.ts:240-254 | every valid comparison decodes to one that is sent the same |
| WireRoundTrip.SiblingPathsAreRefused | packages/metadata/src/query.ts:212-258 | two fields below one dotted relation compile to a condition that decoding refuses |
| LikePatterns.OperandRoundTrip | packages/metadata/src/query.ts:620-636 | unescaping recovers every term, for each of the three forms |
| LikePatterns.PatternMeansForm | packages/metadata/src/query.ts:620-628 | the escaped pattern is one SQL accepts, and LIKE on it answers as the client does on the UTF-16 units of term and value: contains, starts with or ends with |
| LikePatterns.CompilePattern | packages/metadata/src/query.ts:732-745 | the loop computes the token sequence of the anchored expression |
| LikePatterns.CompiledPatternIsLike | packages/metadata/src/query.ts:732-745 | read character by character, the compiled tokens match exactly what LIKE matches, reading a dangling escape as itself |
| LikePatterns.LooseExactlyWhen | packages/metadata/src/query.ts:708-745 | the expression, whose dot is one UTF-16 unit, matches the characters of every value exactly when no gap between literals has an underscore alone or two of them |
| LikePatterns.UnitsMatch | packages/metadata/src/query.ts:727-729 | containing, starting with and ending with mean the same on UTF-16 units as on characters |
| LikePatterns.ClientLikeIsLikeExactlyWhen | packages/metadata/src/query.ts:708-715 | the client's like answers as SQL does on every value exactly when the pattern holds a special character, is not dangling, and has no underscore between two literals but a single one beside a percent sign |
| LikePatterns.ClientLikeOnPlainValues | packages/metadata/src/query.ts:708-715 | on values without characters beyond the basic plane the client's like answers as SQL does for every pattern that holds a special character and is not dangling |
| LikePatterns.ClientLikeDiffers | packages/metadata/src/query.ts:708-715 | a plain pattern inside a longer value, and an underscore on U+1F600: two inputs on which the client's like is not LIKE |
| Decimals.CompareIsExact | packages/metadata/src/query.ts:778-794 | the comparison is the sign of the exact difference, for every two spellings |
| Decimals.ComparePreorder | packages/metadata/src/query.ts:323-334 | the comparator of two cells is a total preorder: values by what they denote, nulls last and equal |
| Decimals.LeadingZeroIsEqual | packages/metadata/src/query.ts:778-794 | a leading zero changes nothing |
| Decimals.TrailingZeroIsEqual | packages/metadata/src/query.ts:778-794 | a trailing zero of the fraction changes nothing |
| Decimals.MovedPointIsEqual | packages/metadata/src/query.ts:778-794 | the point may be traded for the exponent |
| Layers.LayerAncestry | packages/app/src/layers.ts:15-37 | exactly the transitive dependencies of every layer, failing exactly on an unknown id or a cycle |
| Layers.Ancestry.Visit | packages/app/src/layers.ts:23-34 | the memoised visit closes the layer or proves a cycle |
| Layers.AncestryIsLayered | packages/app/src/layers.ts:15-37 | the closures are transitive and irreflexive |
| Layers.SucceedsExactlyWhen | packages/app/src/layers.ts:73-82 | a series of settings succeeds exactly when in each of its prefixes every setting gives way to one of them, and ends with that one |
| Layers.NextSucceedsExactlyWhen | packages/app/src/layers.ts:73-82 | one more setting succeeds exactly when its layer is the same as, above or below the one that stood |
| Layers.DependencyOrderSucceeds | packages/app/src/layers.ts:73-82 | settings in dependency order always succeed and end with the last |
| Layers.UnrelatedAreRefused | packages/app/src/layers.ts:73-82 | two settings alone are refused exactly when neither layer depends on the other and they are not the same |
| Layers.OrderMattersForSuccess | packages/app/src/layers.ts:73-82 | two unrelated settings are refused before a layer above both has set and pass after it |
| Layers.FinalSetterDependsOnAll | packages/app/src/layers.ts:73-82 | whenever a series of settings succeeds, the final setter equals or depends on every setter |
| Layers.OrderDoesNotMatter | packages/app/src/menus.ts:178-198 | any two successful orders with one setting per layer end with the same value |
| Menus.CheckCycles | packages/app/src/menus.ts:305-311 | passes exactly when no walk the check makes comes back to a node it passed |
| Menus.CheckedExactlyWhen | packages/app/src/menus.ts:305-311 | the parents are cyclic exactly when the check refuses them or the empty id is on a cycle |
| Menus.EmptyCycleIsMissed | packages/app/src/menus.ts:305-311 | a cyclic menu that the check accepts |
| Menus.UnrootedExactlyWhen | packages/app/src/menus.ts:305-311 | in an accepted menu the ancestors of a node go on forever exactly when they meet the empty id on its cycle |
| Menus.CollectRemoved | packages/app/src/menus.ts:347-361 | adds the node and every child of what it adds, and nothing outside its subtree; exactly the subtree when no collected node had an uncollected child; also on cycles |
| Menus.RemovedNodes | packages/app/src/menus.ts:346-362 | removed are exactly the nodes with a remove-flagged ancestor or self, cycles included |
| MenuTrees.LogicalTreeConserves | packages/app/src/menus.ts:363-383 | every survivor whose ancestors end at a root occurs exactly once in the logical tree and no other node does |
| MenuTrees.LogicalTreeNests | packages/app/src/menus.ts:363-383 | in the logical tree each such survivor hangs below its parent and nothing else hangs anywhere; the surviving roots are at the top |
| MenuTrees.NothingVanishesExactlyWhen | packages/app/src/menus.ts:305-383 | in an accepted menu every node that is not removed is in the logical tree exactly when the empty id is on no parent cycle or is removed |
| MenuTrees.NavigationTreeConserves | packages/app/src/menus.ts:385-420 | every such survivor except flattened non-roots occurs exactly once in navigation and no other node does |
| MenuTrees.NavigationTreeNests | packages/app/src/menus.ts:385-420 | in navigation a node hangs below another exactly when that one shows and only flattened nodes lie between |
| MenuTrees.NavigatesExactlyWhen | packages/app/src/menus.ts:337-345 | that is exactly hanging a shown node under the nearest ancestor that is unflattened or a root |
| MenuTrees.FindShownUnder | packages/app/src/menus.ts:339-345 | the loop finds the nearest unflattened ancestor or root, also below a cycle |
| MenuTrees.ReportNeverEnds | packages/app/src/menus.ts:339-345 | an accepted menu on which that loop does not end |
| MenuTrees.NavigationParent | packages/app/src/menus.ts:337-345 | a surviving unflattened node is a navigation child of the node it is reported to show under |
| MenuTrees.Resolve | packages/app/src/menus.ts:261-420 | refuses exactly unknown parents and the cycles the check sees; otherwise removes exactly the flagged subtrees, each with the parent it showed under, and keeps every other node whose ancestors end at a root once in each tree it belongs to, hung in the logical tree below its parent and in navigation below its nearest shown ancestor, with exactly the surviving roots at the top |
| LiveInvalidation.Coalescer.Push | packages/refine/src/query-invalidation.ts:139-149 | buffer, timer and first time follow the reference machine, whose deadline is the earlier of 300 ms after the last and 2000 ms after the first push |
| LiveInvalidation.Coalescer.Flush | packages/refine/src/query-invalidation.ts:121-130 | hands out the whole burst at its deadline and empties buffer, timer and first time together |
| LiveInvalidation.Coalescer.Clear | packages/refine/src/query-invalidation.ts:133-138 | drops the burst and empties buffer, timer and first time together |
| LiveInvalidation.Coalescer.Drive | packages/refine/src/query-invalidation.ts:114-151 | every legal run of the reference machine is a run of the object; the three fields are set or empty together |
| LiveInvalidation.RunsKeepInv | packages/refine/src/query-invalidation.ts:114-151 | in every run bursts are never pushed to after they fall due, and every flush is a whole burst at its deadline |
| LiveInvalidation.FlushIsInTime | packages/refine/src/query-invalidation.ts:95-98 | a flush is at most 2000 ms after its first and 300 ms after its last push, one of them exactly |
| LiveInvalidation.NothingWaitsLong | packages/refine/src/query-invalidation.ts:95-98 | no buffered change is older than 2000 ms, nor the last push older than 300 ms |
| LiveInvalidation.EveryChangeLeavesOnce | packages/refine/src/query-invalidation.ts:114-151 | flushes, clears and the buffer together hold exactly the pushed changes, each once, in order |
| LiveInvalidation.EveryChangeLeavesInTime | packages/refine/src/query-invalidation.ts:114-151 | in every run from an empty buffer the i-th change pushed is the i-th to leave, and has left once 2000 ms have passed |

## Left out

- A stop between a create and its record, interleaving of two agents' verbs there, and edits of the runtime class between verbs: a create and its record are one step and the runtime is fixed per agent.
- Provisioning.Agent.InspectConflict: the daemon's report is taken to carry the name that was asked for.
- Provisioning.ForgottenExactlyWhenRecordedElsewhere: one create and one failure; for whole runs Provisioning.Agent.Drive says what is forgotten.
- Provisioning.Agent.Rename: a rename happens between verbs; the source does not take the provisioning lock for it.
- Provisioning.Agent.Drive: after a stop a recorded name may be stale, because its destroy was confirmed and not yet noted; what is held and refused stays exact.
- Templates, secrets, the render plan and runtime environments: together one call that may fail before anything is created.
- Authorisation, history, signals, the task queue and the change feed: each locked transaction is one atomic step, and the broker neither loses deliveries nor lets them expire.
- SessionMachine.RunsKeepInv: turn rows are never deleted in the model, and a worker that dies in the middle of a turn is a settlement that never comes.
- AgentSessions.TurnUpdateSink.Emit: the flush interval is an arbitrary choice at each update.
- AcpDelivery.Attachment.Drive: turns are first observed in index order and rows only grow; arrivals that would break this are skipped.
- AcpDelivery.Attachment.Conclude: the stop reason a settlement carries is not part of the log.
- AcpDelivery.Attachment.Restore: the extra idle report on resume for a turn awaiting approval is not part of this model; ACP v1, turn deletion and JSON-RPC framing are not either.
- AcpProjection.SnapshotAgreesWithStreaming: other update kinds reach no part of the client, so a snapshot that drops them agrees.
- FilterParsing.KeyOrderDoesNotMatter: the order in which the host lists the keys of a rebuilt object is an arbitrary total preorder; error messages and paths are not modelled.
- FilterPipeline.ResolveMeans: operand validation per scalar type is an arbitrary function, idempotent where stated; the second sort of an already sorted filter is not repeated.
- FilterRendering.FromConditionMeans: field names are distinct and none is `AND`, `OR` or `NOT`, and operand validation does not depend on key order.
- WireConditions.WhereMeans: wire paths are proper, which PathMeansItselfExactlyWhen shows to be needed; so are those of ToWhereMeansAll, CompiledMeansRaw and the decoding results.
- WireConditions.ToWhereMeansAll: atoms are interpreted by an arbitrary assignment, so to-many relations do not enter.
- RowTests.ComparesAlike: the database and the client are taken to agree on equality, order and text of the values of a column, on JSON containment, and on case-insensitive and regular expression matching; SIMILAR, which the client refuses, and patterns it matches otherwise than SQL are left aside.
- RowTests.ServerSelectsWhatClientMatches: SQL's null is the unknown of every comparison but the null test, and the value of a cell is what the row holds at the field's wire path.
- LikePatterns.CompiledPatternIsLike: on a dangling pattern, where SQL raises an error, LIKE is taken to read the backslash as itself; ClientLikeIsLikeExactlyWhen excludes those patterns.
- LikePatterns.PatternMeansForm: case-sensitive forms only; case-insensitive text, native regular expressions, dates and collation depend on the host.
- LikePatterns.CompilePattern: the regular expression is its token sequence; strings are sequences of characters, so lone surrogates do not occur.
- Decimals.ComparePreorder: the collation of String cells depends on the host; a value map leaves no undefined cell.
- Decimals.CompareIsExact: a spelling is given by the groups of the decimal grammar; extracting them is not modelled.
- `withoutFields`, facets, grouping, text search and pagination of the query language: more cases of the same recursion.
- MenuTrees.Resolve: requires that reporting each removed node ends, without which the source does not return; `only`, `hide`, mounts, emitted fields and the other per-node validations are not modelled, and positioning siblings is any permutation.
- Layers.OrderDoesNotMatter: two settings of one field by the same layer are ordered by that layer.
- LiveInvalidation.Coalescer.Flush: which queries a batch invalidates, and cancelling requests in flight, are not modelled; timers are ideal.
