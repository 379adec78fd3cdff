# The NovBot center: a model and its proofs

NovBot's center is a control plane. It tells a fleet of nodes what to run, when, and with which
skill packages, and it keeps what they report. This project models its decision logic and its
protocols in Dafny and proves what an operator relies on.

| part | files |
|---|---|
| time and schedules | `Calendar`, `Cron`, `Schedule` |
| dispatch delivery | `Gate`, `Queue`, `Hub`, `QueueHistory`, `Session` |
| skill packages | `Tables`, `Catalog`, `Desired`, `Rollback`, `Changes`, `Effects`, `Bundles`, `Requests`, `Chunks`, `Delivery`, `Center`, `SkillSystem` |
| audit log and results | `Audit`, `Results` |
| node tags | `Tags`, `TagBulk`, `TagRegister`, `TagStore` |
| tag selectors of the console | `Sorting`, `Selector`, `SelectorText`, `SelectorRoundTrip` |
| strings | `Text` |

**Time.** The day-to-date arithmetic is compared with an independent day count over the Gregorian
leap rule. A cron field is given a meaning, the union of what its comma parts denote, and the matcher is
proved to decide it. The guarantees about firing range over every sequence of ticks.

**Dispatch.** `Session` is a transition system of any number of sessions that share one hub and one queue.
Each database call, hub call and send is its own step and may fail, so sessions interleave between them.
`ReadyGate`, `PendingQueue`, `Outbox` and `Hub` are the objects with their in-place methods; the
transition system uses the same functions that specify those methods. `Apply` over `QueueHistory.History`
adds a log of what happened to the queue, so that statements about the past can be made.

**Skills.** `Tables.Store` holds the tables, keyed by their unique keys. `Center.Center` is the object
that changes them row by row; its methods are proved against the functions of `Catalog`, `Changes`,
`Requests` and `Delivery`, and `SkillSystem` runs those functions in any order, with outside edits of
version status, bundles, nodes and the audit log in between.

**Tags.** The planner works on the original rows and an overlay; the apply works item by item on the live rows. The
first is proved to foretell the second. A plan is also shown to be the only one that does.

**Selectors.** The reader of one requirement is proved equal to the regular expressions it stands for, and
printing followed by parsing is proved to sort and to change nothing else.

## Findings

- A result for a queued dispatch, stored after the dispatch was queued, is not guaranteed in one
  case: when a session has stored a result for the same node and run id and has not yet deleted the
  queue rows of that run, a new row with that run id is deleted with them. `Session.AnsweredUnlessRunIdReused`
  says that this is the only case, and `Session.ReusedRunIdLosesRow` shows it happen.
- A cron-only schedule fires twice in one minute in one case only: the first tick is at second 0 of the
  epoch, the expression matches it, and the next tick is before second 60 (`Schedule.CronOncePerMinute`);
  `* * * * *` ticked at seconds 0 and 30 is an example (`Schedule.EpochMinuteFiresTwice`).
- What a node is known to have applied is forgotten exactly when a report that is not stale lists no skill
  and the node has rows (`Delivery.MemoryIsKeptUnlessEmpty`, with an example in `Delivery.EmptyReportForgets`).
- The comment in `schedule.rs` speaks of a cron matcher; a `*` that is one part of a list, and a range with
  a step (`a-b/n`), match nothing, and day of month and day of week are both required. The model follows the code.
- An attempt need not be a claim: a targeted dispatch that reaches a connected node counts an attempt and puts its
  rows in flight without claiming them, so that a younger row can be claimed before them
  (`Session.MarkedRowIsOvertaken`). Attempts are claims plus such marks (`Session.ClaimDiscipline`), and with the
  marks the rows of a node are first tried in id order (`Session.OlderTriedFirst`).
- A failed read of the configuration generation counts as generation 0
  (`crates/novbot-center/src/db.rs:641-647`, `crates/novbot-center/src/grpc.rs:583-614`). A gate opens behind
  the center's generation exactly when that read fails and the acknowledged generation is not negative
  (`Session.OpensBehindOnlyUnread`, with a run that does so in `Session.UnreadGenerationOpens`).

## Assumptions

- Seconds, identifiers and generations are unbounded integers; one abstract clock serves all sessions and never goes back.
- Version strings are ranked by an abstract parser into a total order; SHA-256 and JSON printing are
  uninterpreted, JSON text has no line break and a hash is a non-empty line.
- Tickets, session numbers and operation ids are fresh where the program draws them at random.
- Requests that change desired sets do not overlap: the program reads the desired rows and generations
  before it takes the lock (`crates/novbot-center/src/skill_desired.rs:415-416`, `:1081-1082`, `:1331`).
- The digests the hashing function produces are trimmed and in lower case. Requested and reported digests may
  be written otherwise and are brought to that form where the program does so.
- String keys are compared exactly, although the default collation of most tables ignores case.
- An install reads the catalog and writes the desired rows in one step, so that no version is deleted in
  between; a NodeReady reads the configuration generation and changes the gate in one step.
- The console's string order is total, and its sort stable.

## Model

| member | source | states |
|---|---|---|
| Calendar.CivilFromDaysExact | crates/novbot-core/src/schedule.rs:156-167 | for every day number the date is valid and an independent day count maps it back |
| Calendar.CivilFromDaysInverse | crates/novbot-core/src/schedule.rs:156-167 | every valid Gregorian date comes back from its day number, so the two are inverse |
| Calendar.CivilFromDaysSuccessor | crates/novbot-core/src/schedule.rs:156-167 | the next number is the next calendar day, with month and year carry and the 4/100/400 rule |
| Calendar.DaysFromCivilInjective | crates/novbot-core/src/schedule.rs:156-167 | no two valid dates share a day number |
| Calendar.UtcPartsExact | crates/novbot-core/src/schedule.rs:140-153 | the parts are the minute, hour, day and month of a date and second that make up the timestamp, and the weekday counted day by day from Thursday, 1 January 1970 |
| Calendar.UtcPartsOfMinute | crates/novbot-core/src/schedule.rs:140-153 | the parts depend on the minute only |
| Cron.PartMatch | crates/novbot-core/src/schedule.rs:173-214 | one comma part matches exactly the values it denotes; a malformed part denotes none |
| Cron.FieldMatch | crates/novbot-core/src/schedule.rs:169-217 | the comma loop decides membership in the union of what the parts denote |
| Cron.CronMatch | crates/novbot-core/src/schedule.rs:127-138 | five fields, all of which must match; any other number of fields matches never |
| Cron.PartShapes | crates/novbot-core/src/schedule.rs:173-214 | the forms a part can have exclude one another, so the order of the branches picks the right one |
| Cron.MalformedPartsDenoteNothing | crates/novbot-core/src/schedule.rs:178-214 | a `*` that is one part of a list, a range with a step and an empty part denote the empty set, whatever the range and step say |
| Cron.CronMatchesByMinute | crates/novbot-core/src/schedule.rs:127-153 | two times in one UTC minute match alike |
| Cron.NumeralsNameOneMinute | crates/novbot-core/src/schedule.rs:127-138 | five numerals match exactly when minute, hour, day, month and weekday are those numbers, in that order |
| Cron.StepsCountFromFieldStart | crates/novbot-core/src/schedule.rs:127-138 | five `*/n` fields match exactly when each part is its field's start plus a multiple of n: 0 for minute, hour and weekday, 1 for day and month |
| Schedule.ScheduleDue | crates/novbot-core/src/schedule.rs:95-124 | due exactly when the interval has passed or the cron latch allows it; the final blank check changes nothing |
| Schedule.DueSpecs | crates/novbot-core/src/schedule.rs:74-93 | the spec ids of exactly the schedules that are enabled and due against their last run, in schedule order, each once |
| Schedule.CronOncePerMinute | crates/novbot-core/src/schedule.rs:106-115 | over any nondecreasing ticks at most one firing per minute, if and only if the epoch case is absent |
| Schedule.EpochMinuteFiresTwice | crates/novbot-core/src/schedule.rs:106-115 | `* * * * *` ticked at seconds 0 and 30 of the epoch fires at both |
| Schedule.CronFiresInEveryMatchingMinute | crates/novbot-core/src/schedule.rs:106-115 | every matching minute that has a tick has a firing |
| Schedule.CronFiresOnlyWhenMatching | crates/novbot-core/src/schedule.rs:106-115 | no firing outside a matching minute |
| Schedule.IntervalSpacing | crates/novbot-core/src/schedule.rs:100-105 | consecutive firings are at least the interval (and one second) apart, even when the clock steps back |
| Gate.ReadyGate.OnBound | crates/novbot-center/src/grpc.rs:72-78 | the first bind starts the wait; a later one neither restarts it nor closes an open gate |
| Gate.ReadyGate.OnNodeReady | crates/novbot-center/src/grpc.rs:80-86 | opens when the acknowledged generation has reached the center's, and says so once |
| Gate.ReadyGate.OnTimeout | crates/novbot-center/src/grpc.rs:97-108 | opens at or after the deadline, and says so once |
| Gate.OpensAtMostOnce | crates/novbot-center/src/grpc.rs:57-113 | over any events within one binding the gate opens at most once |
| Queue.PendingQueue.Enqueue | crates/novbot-center/src/db.rs:436-457 | a new row under a new id, unclaimed, others untouched |
| Queue.PendingQueue.Claim | crates/novbot-center/src/db.rs:460-511 | returns the node's available rows in id order and marks exactly those, adding one attempt each |
| Queue.PendingQueue.Ack | crates/novbot-center/src/db.rs:514-521 | row by row: exactly those of that node and run are gone, the others are as they were |
| Queue.PendingQueue.Requeue | crates/novbot-center/src/db.rs:524-541 | the given rows can be claimed again at any time, with their attempts kept; every other row is as it was |
| Queue.PendingQueue.RequeueInFlightForNode | crates/novbot-center/src/db.rs:544-556 | every row of the node can be claimed again at any time; rows of other nodes are as they were |
| Queue.PendingQueue.MarkLive | crates/novbot-center/src/targets.rs:828-843 | after a live send the rows of the run are held back for the timeout and count one attempt more; every other row is as it was |
| Queue.AvailableExact | crates/novbot-center/src/db.rs:460-511 | the claimed list holds the claimable rows of the node, each once, in id order |
| Queue.SendBatch | crates/novbot-center/src/grpc.rs:533-553 | sends a prefix of the batch and stops at the first failure |
| Queue.FlushPending | crates/novbot-center/src/grpc.rs:518-553 | claimed rows are sent up to a point; exactly the unsent rest is available again |
| Hub.Hub.Unregister | crates/novbot-center/src/hub.rs:40-48 | drops the entry only if it is the caller's own |
| Hub.Hub.IssueTicket | crates/novbot-center/src/hub.rs:91-105 | the ticket is good for this node and package until it expires, however the digest is written; other live tickets are unaffected |
| Hub.Hub.CheckTicket | crates/novbot-center/src/hub.rs:110-129 | granted exactly to the node and package, by its trimmed lower-case digest, the live ticket was issued for |
| Hub.GrantedIff | crates/novbot-center/src/hub.rs:110-129 | granted exactly when the ticket is recorded for this node and this trimmed lower-case digest and has not expired |
| QueueHistory.ApplyKeeps | crates/novbot-center/src/db.rs:436-556 | every queue operation keeps the whole queue invariant |
| QueueHistory.ClaimsSeparated | crates/novbot-center/src/db.rs:460-511 | two claims of a row have a requeue of it or more than the timeout between them |
| Session.HubServesReadyOwner | crates/novbot-center/src/grpc.rs:135-250 | in every reachable state a hub entry names a session with an open gate that is bound to that node or has just unbound it on a rebind; the gate was opened earlier, in that session's present binding and for that node; on a rebind, and when its stream has ended, its next step drops the entry |
| Session.OnlyTakeoverDisplaces | crates/novbot-center/src/hub.rs:36-55 | a session loses its hub entry only to a takeover, an eviction, its own leaving or a restart |
| Session.OpenGateWasOpened | crates/novbot-center/src/grpc.rs:57-113 | in every reachable state an open gate of a running session was opened in its present binding, for the node it has or is just leaving |
| Session.FirstBindStartsWait | crates/novbot-center/src/grpc.rs:163-177 | the first node id binds the session with a closed gate whose wait starts now |
| Session.RebindStartsOver | crates/novbot-center/src/grpc.rs:163-177 | another node id gives up the old node's entry and frees its rows, then binds with a new closed gate whose wait starts now; nothing is sent in between |
| Session.MessageFlushesIfReady | crates/novbot-center/src/grpc.rs:211-215 | a frame of the bound node claims for it exactly when the gate is open, and changes no binding |
| Session.ReadyOpensAndClaims | crates/novbot-center/src/grpc.rs:583-614 | a current NodeReady of the bound node opens the gate, then the session enters the hub, then it claims |
| Session.TimerOpensAndClaims | crates/novbot-center/src/grpc.rs:226-236 | at the deadline the gate opens, then the session enters the hub, then it claims |
| Session.RegisterStartsClean | crates/novbot-center/src/grpc.rs:340-353 | an accepted Register leaves the node without a hub entry and with all its rows free before the session answers |
| Session.EndGivesUp | crates/novbot-center/src/grpc.rs:240-249 | when the stream ends the session's own entry goes and every row of the node is free |
| Session.ReportStoresThenAcks | crates/novbot-center/src/grpc.rs:447-484 | a report adds its result and, in the next step, exactly the rows of that node and run leave the queue |
| Session.FailedReportKeepsRows | crates/novbot-center/src/grpc.rs:447-484 | a report whose storing failed, before or after the row was written, removes no row |
| Session.FlushSendsInOrder | crates/novbot-center/src/grpc.rs:518-553 | a claim and k successful sends put the first k rows of the batch on the stream, in id order, and nothing else |
| Session.FailedSendGivesBack | crates/novbot-center/src/grpc.rs:518-553 | when send k fails the k rows before it stay in flight and all others of the batch can be claimed again |
| Session.GateOpensRightly | crates/novbot-center/src/grpc.rs:80-108 | every opening is at the deadline, or by an acknowledgement that is current, or not negative when the generation could not be read |
| Session.GateOpensOncePerBinding | crates/novbot-center/src/grpc.rs:57-113 | within a binding the gate opens at most once, at the deadline, or by an acknowledgement that is current unless the generation could not be read |
| Session.OpensBehindOnlyUnread | crates/novbot-center/src/grpc.rs:583-614 | the gate opens behind the center's generation if and only if the session is bound to the node, the gate is closed, the read fails and the acknowledged generation is from 0 up to it |
| Session.UnreadGenerationOpens | crates/novbot-center/src/grpc.rs:583-614 | a reachable state with generation 1 in which an acknowledgement of 0 opens the gate |
| Session.FramesGoToReadyOwner | crates/novbot-center/src/grpc.rs:518-566 | every queue frame goes to a session bound to the row's node whose gate stands open and was opened earlier in that same binding for that node |
| Session.QueuedDispatchConserved | crates/novbot-center/src/grpc.rs:447-484 | every row ever queued is still there or a result with its node and run has been stored |
| Session.ClaimDiscipline | crates/novbot-center/src/db.rs:460-556 | attempts count claims and live marks, claims of a row are spaced by a requeue or the timeout, a claim takes its rows in id order |
| Session.OlderTriedFirst | crates/novbot-center/src/db.rs:460-511 | at any claim of a row, each older row of the node that waits or was ever sent has been claimed or marked by then |
| Session.MarkedRowIsOvertaken | crates/novbot-center/src/targets.rs:768-843 | a reachable state in which a targeted dispatch to a connected node has left one attempt and no claim, and one after it in which a row queued later is claimed and the older is not |
| Session.AnsweredUnlessRunIdReused | crates/novbot-center/src/skill_desired.rs:1529-1558 | a row queued now will wait or get a result stored from now on, in every continuation, if and only if no acknowledgement of its run is under way |
| Session.PendingAckDropsRow | crates/novbot-center/src/grpc.rs:447-484 | the continuation that loses the row when one is under way |
| Session.ReusedRunIdLosesRow | crates/novbot-center/src/grpc.rs:447-484 | a reachable state with one under way, the row queued then, and the step that removes it without a result |
| Catalog.PublishKeeps | crates/novbot-center/src/skill_catalog.rs:1158-1234 | publishing keeps catalog, artifacts and desired rows in agreement; re-publishing changes nothing |
| Catalog.DeleteKeeps | crates/novbot-center/src/skill_catalog.rs:477-549 | deleting a version that is not in use keeps the agreement and drops its artifact with it |
| Catalog.PublishOutcome | crates/novbot-center/src/skill_catalog.rs:1158-1234 | already published, refused or created according to the row of that name and version and the digests in the catalog; a created row describes the package; nothing else changes |
| Catalog.DeleteOutcome | crates/novbot-center/src/skill_catalog.rs:477-549 | deleted exactly when known and wanted, reported or bundled by nobody; only its row and an artifact no other version uses go |
| Catalog.VerifyFiles | crates/novbot-center/src/skill_catalog.rs:855-887 | accepts exactly the archives whose every file is declared with its digest; names the offending file otherwise |
| Desired.Resolve | crates/novbot-center/src/skill_desired.rs:1018-1046 | the named nodes first, then the selected ones |
| Desired.ResolvedOnce | crates/novbot-center/src/skill_desired.rs:1018-1046 | each target occurs once, and only targets occur |
| Desired.ResolvedAll | crates/novbot-center/src/skill_desired.rs:1018-1046 | no named id and no node with the labels is left out |
| Desired.MissingIsUnknown | crates/novbot-center/src/skill_desired.rs:1018-1046 | a target is reported unknown exactly when no node has its id |
| Desired.LabelsMatchIsMerge | crates/novbot-center/src/skill_desired.rs:1974-1980 | labels match exactly when merging the wanted ones changes nothing |
| Desired.RequirementMeaning | crates/novbot-center/src/skill_desired.rs:670-682 | a blank requirement matches no version, a star every one, an exact version itself only, anything else what the range accepts |
| Desired.InstallOutcome | crates/novbot-center/src/skill_desired.rs:1119-1159 | too old exactly when both versions rank and the node's is lower; unsupported exactly when not too old, the list is not empty, os and arch are known and neither spelling is listed; already installed exactly when neither holds and the row matches; else pending or queued by connection |
| Desired.RollbackOutcome | crates/novbot-center/src/skill_desired.rs:1161-1215 | the same of a rollback that has a version to go to |
| Desired.RollbackTargetIs | crates/novbot-center/src/skill_desired.rs:1161-1215 | without a named version the target is the highest published or deprecated one below what the node wants, and there is none exactly when none is below |
| Desired.UninstallOutcome | crates/novbot-center/src/skill_desired.rs:1217-1232 | nothing to do exactly when the node does not want the skill; else pending or queued by connection |
| Desired.ApplyPlansOnNode | crates/novbot-center/src/skill_desired.rs:1321-1355 | applying plans changes a node's row and generation exactly when one of them acts on it |
| Desired.HighestIsGreatest | crates/novbot-center/src/skill_desired.rs:1291-1302 | the chosen version is an eligible one and none eligible is higher |
| Rollback.OneRollback | crates/novbot-center/src/skill_desired.rs:1161-1215 | an implicit rollback goes to the highest eligible version below, is held, or has nowhere to go |
| Rollback.Descent | crates/novbot-center/src/skill_desired.rs:1161-1215 | repeated rollbacks go down a staircase of neighbouring eligible versions |
| Rollback.StairsFall | crates/novbot-center/src/skill_desired.rs:1291-1302 | the versions visited fall strictly |
| Rollback.NoneSkipped | crates/novbot-center/src/skill_desired.rs:1291-1302 | no eligible version is skipped on the way down |
| Rollback.RollbackEnds | crates/novbot-center/src/skill_desired.rs:1161-1215 | fewer writes than there are versions lead to no_previous_version or to a held node |
| Rollback.DescentIsComplete | crates/novbot-center/src/skill_desired.rs:1161-1215 | at no_previous_version every eligible version below the start has been visited |
| Changes.InstallPlansFit | crates/novbot-center/src/skill_desired.rs:1119-1159 | each plan acts on its own node, only to change something, and takes the next generation |
| Changes.RollbackPlansFit | crates/novbot-center/src/skill_desired.rs:1161-1215 | the same of rollback plans |
| Changes.UninstallPlansFit | crates/novbot-center/src/skill_desired.rs:1217-1232 | the same of uninstall plans |
| Changes.InstalledIsCounted | crates/novbot-center/src/skill_desired.rs:1072-1117 | a batch raises a node's generation by the number of its rows it changes and leaves other skills alone |
| Changes.DryRunForetells | crates/novbot-center/src/skill_desired.rs:1048-1117 | per plan and node the write has the previewed outcome, and the previewed generation plus the changes previewed so far |
| Effects.InstallEffect | crates/novbot-center/src/skill_desired.rs:1119-1159 | each target is told what versions, labels, current row and connection call for; told pending, queued or already installed, it wants exactly the version; told anything else it is left alone; no other row of it changes |
| Effects.UninstallEffect | crates/novbot-center/src/skill_desired.rs:452-522 | unless refused, no target wants the skill afterwards and their other rows stay |
| Effects.RollbackEffect | crates/novbot-center/src/skill_desired.rs:362-450 | unless refused, an implicit rollback of many nodes does to each what it would do to that node alone |
| Effects.ExplicitRollbackEffect | crates/novbot-center/src/skill_desired.rs:362-450 | each target is told what versions, labels, current row and connection call for, and every one that is not held back wants exactly the named version |
| Effects.OthersUntouched | crates/novbot-center/src/skill_desired.rs:1321-1355 | a node that is not a target keeps its desired set and generation |
| Effects.RollbackRefusedIff | crates/novbot-center/src/skill_desired.rs:362-450 | an implicit rollback is refused exactly when some target is known and no known target has a version to go back to |
| Effects.RollbackVersionIs | crates/novbot-center/src/skill_desired.rs:1304-1319 | without a named version the answer has one exactly when some node gets a version and all that do get that one |
| Effects.SingleNodeIs | crates/novbot-center/src/skill_desired.rs:1851-1863 | a node is named exactly when it is the only known target |
| Effects.InstallEvent | crates/novbot-center/src/skill_desired.rs:1072-1117 | one event unless no target is known, an upgrade exactly when some target wanted another version |
| Effects.UninstallRefusedIff | crates/novbot-center/src/skill_desired.rs:452-522 | refused exactly when not forced, the skill is in use and some target is known |
| Effects.OneEventEach | crates/novbot-center/src/skill_desired.rs:362-522 | a rollback and an uninstall write one event naming the skill, and none when refused or no target is known |
| Requests.DryRunForetellsReply | crates/novbot-center/src/skill_desired.rs:617-642 | the same of the two answers a caller gets |
| Requests.BundleDryRunForetells | crates/novbot-center/src/skill_bundles.rs:188-260 | the dry run of a bundle foretells its install, item by item and node by node |
| Requests.InstallAllowedIff | crates/novbot-center/src/skill_desired.rs:309-360 | an install is planned exactly for a known, published version of a skill that is not built in, with the accepted capability hash; each refusal exactly when its own reason comes first |
| Requests.ExplicitVersionIs | crates/novbot-center/src/skill_desired.rs:362-400 | a named version is used unless unknown or yanked; a blank one counts as none |
| Requests.TargetsIff | crates/novbot-center/src/skill_desired.rs:984-999 | there are targets exactly when nodes are named or the selector matches one |
| Requests.NothingWritten | crates/novbot-center/src/skill_desired.rs:617-642 | a dry run and a refused request change no table |
| Requests.BuiltinAndUnknownRefused | crates/novbot-center/src/skill_desired.rs:362-522 | built-in and unknown skills are refused by rollback and uninstall, and a refusal changes nothing |
| Bundles.ValidateItems | crates/novbot-center/src/skill_bundles.rs:395-419 | accepted exactly when non-empty, well sized and free of duplicate names |
| Bundles.BundlePlans | crates/novbot-center/src/skill_bundles.rs:194-219 | plans for all items, or the refusal of the first item that is refused |
| Bundles.PlansAreBest | crates/novbot-center/src/skill_bundles.rs:188-219 | plans are for distinct skills, each the highest published version that matches |
| Bundles.PlansCover | crates/novbot-center/src/skill_bundles.rs:188-219 | exactly the items that are not built in have a plan, and one each |
| Bundles.Answer | crates/novbot-center/src/skill_bundles.rs:231-260 | one entry per item in item order, each change handed out once |
| Bundles.AcceptedIff | crates/novbot-center/src/skill_desired.rs:684-693 | capabilities are accepted exactly when a non-blank hash equal to the stored one, but for case and outer space, is given |
| Chunks.ArtifactChunks | crates/novbot-center/src/skill_delivery.rs:318-349 | chunks in a row, full but for the last, that make up the rest of the artifact; out of range is refused |
| Chunks.ResumedFetchesRebuild | crates/novbot-center/src/skill_delivery.rs:318-349 | however often cut off and resumed, a completed fetch has rebuilt the bytes |
| Delivery.BuildDesired | crates/novbot-center/src/skill_delivery.rs:39-80 | the joined rows with tickets that are good for the node until they expire |
| Delivery.JoinDropsNothing | crates/novbot-center/src/skill_delivery.rs:45-58 | under agreement the join keeps every desired row, and each reference can be fetched as described |
| Delivery.FetchedBytesAreRight | crates/novbot-center/src/skill_delivery.rs:318-349 | a completed fetch of a reference hashes to the digest the node was told |
| Delivery.Fetch | crates/novbot-center/src/grpc.rs:255-277 | bytes only for a live ticket of this node and package by its trimmed lower-case digest, looked up by the trimmed one |
| Delivery.AcceptedReport | crates/novbot-center/src/skill_delivery.rs:175-281 | the node's rows are then the reported ones, of one generation; other nodes and tables are untouched |
| Delivery.ReportAgain | crates/novbot-center/src/skill_delivery.rs:175-316 | the same report again changes no row and writes no event |
| Delivery.OlderReportIgnored | crates/novbot-center/src/skill_delivery.rs:218-223 | a report older than an accepted, non-empty one changes nothing |
| Delivery.MemoryIsKeptUnlessEmpty | crates/novbot-center/src/skill_delivery.rs:193-227 | the remembered generation is lost if and only if the report is empty and not stale and there are rows |
| Delivery.EmptyReportForgets | crates/novbot-center/src/skill_delivery.rs:193-227 | a row of generation 3 and an empty report of generation 3, after which nothing is remembered |
| Delivery.ReportOutcomeIs | crates/novbot-center/src/skill_delivery.rs:175-281 | ignored exactly when negative or older than a row of the node; failed exactly when not ignored, not empty, and the node is unknown or a name is repeated |
| Delivery.ReportedFields | crates/novbot-center/src/skill_delivery.rs:229-281 | an accepted report stores every reported field of every skill under the report's generation |
| Delivery.ReportAnnouncesNews | crates/novbot-center/src/skill_delivery.rs:283-316 | one event for each skill whose state is news and differs from the prior row, in report order |
| Center.Center.PublishPackage | crates/novbot-center/src/skill_catalog.rs:1158-1234 | a new version gets its row and its artifact; the same bytes again only restore a missing artifact; other bytes under the version or a digest in use are refused |
| Center.Center.DeleteVersion | crates/novbot-center/src/skill_catalog.rs:477-549 | refused while a node wants or reports the version or a bundle names it; else row and unreferenced artifact go |
| Center.Center.Persist | crates/novbot-center/src/skill_desired.rs:1321-1410 | row by row writes end in the specified tables with one audit event |
| Center.Center.PreviewInstalls | crates/novbot-center/src/skill_desired.rs:1048-1070 | every plan against the same tables, none of which changes |
| Center.Center.WriteInstalls | crates/novbot-center/src/skill_desired.rs:1072-1117 | each plan against what the ones before it wrote |
| Center.Center.ApplyInstalls | crates/novbot-center/src/skill_desired.rs:617-642 | tables and answer of a batch; the read-only shortcut changes neither |
| Center.Center.InstallVersion | crates/novbot-center/src/skill_desired.rs:309-360 | tables and answer of an install, with its refusals in order |
| Center.Center.InstallBundleItems | crates/novbot-center/src/skill_bundles.rs:188-260 | tables and answer of a bundle install: the first refusal, or one entry per item with what its own plan told each target; nothing is written when refused |
| Center.Center.RollbackSkill | crates/novbot-center/src/skill_desired.rs:362-450 | tables and answer of a rollback |
| Center.Center.RollbackVersionOf | crates/novbot-center/src/skill_desired.rs:1304-1319 | the explicit version, or the one all writes share |
| Center.Center.UninstallSkill | crates/novbot-center/src/skill_desired.rs:452-522 | tables and answer of an uninstall |
| Center.Center.ApplyReport | crates/novbot-center/src/skill_delivery.rs:175-281 | tables after a report; a key error part way undoes all of it |
| SkillSystem.StepKeepsInv | crates/novbot-center/src/skill_desired.rs:1321-1410 | every operation keeps agreement, the audit chain, unique nodes and distinct bundle items |
| SkillSystem.ArtifactsAreExact | crates/novbot-center/src/skill_catalog.rs:477-517 | in every run the artifacts are exactly those of catalog versions and hash to their keys |
| SkillSystem.DeliveryIsComplete | crates/novbot-center/src/skill_delivery.rs:39-80 | in every run a node is sent all its desired skills, all fetchable with the stated digest and size |
| SkillSystem.StepCounts | crates/novbot-center/src/skill_desired.rs:1333-1355 | every operation raises a generation by the number of the node's desired rows it changes |
| SkillSystem.GenerationIdentifiesSet | crates/novbot-center/src/skill_desired.rs:1260-1281 | along a run a node's generation never falls, and equal generations mean equal desired sets |
| SkillSystem.AuditTellsTampering | crates/novbot-center/src/skill_desired.rs:1621-1671 | another valid log with the head of a run's log tells the same story, or shows a hash collision |
| Audit.AuditLog.Append | crates/novbot-center/src/skill_desired.rs:1621-1666 | one event that hashes its fields and its predecessor's hash; a valid chain stays valid |
| Audit.MaterialInjective | crates/novbot-center/src/skill_desired.rs:1668-1671 | the joined text determines its four parts, with line breaks allowed in the target |
| Audit.SameHeadSameStory | crates/novbot-center/src/tags.rs:1511-1562 | valid chains with one head hash tell one story, or two of their inputs collide |
| Results.ResultStore.StoreReported | crates/novbot-center/src/skill_desired.rs:1529-1558 | every report adds a result; its denials add an event unless the run has one |
| Results.OneDenialEventPerRun | crates/novbot-center/src/skill_desired.rs:1523-1558 | over all reports a run has an event exactly when some report lists denials, just one, and that of the first such report |
| Tags.EffectiveOf | crates/novbot-center/src/tags.rs:880-906 | each key has the value of its strongest valid source, center over node over system |
| Tags.ListTags | crates/novbot-center/src/db.rs:234-292 | the fold of the sorted view gives every key that same value and source |
| Tags.ProdIff | crates/novbot-center/src/tags.rs:927-940 | a node counts as production exactly when the effective env is prod or an invalid declared tag says so |
| TagBulk.PlanNode | crates/novbot-center/src/tags.rs:1073-1224 | every item says what the item by item apply does and leads to what the rows call for, with the real effective values before and after; the production flag covers both ends |
| TagBulk.CapHolds | crates/novbot-center/src/tags.rs:1136-1195 | at no step of the apply are there more than 32 center tags |
| TagBulk.OverlayGrows | crates/novbot-center/src/tags.rs:942-959 | one more overlay entry is one more item applied |
| TagBulk.PlanIsUnique | crates/novbot-center/src/tags.rs:1073-1224 | table and requests determine the plan, so a dry run shows what the write does |
| TagBulk.PutLeadsTo | crates/novbot-center/src/tags.rs:1154-1212 | the key then has the requested value, except when it had no center row and 32 center keys were present, which is the one error; added, changed and unchanged exactly by what the row was |
| TagBulk.DropLeadsTo | crates/novbot-center/src/tags.rs:1106-1153 | the key then has no center row; removed, boot-reported and not-found exactly by which row there was |
| TagBulk.WritesAreChanges | crates/novbot-center/src/tags.rs:1073-1224 | an item counts as a write exactly when the center value of its key changes, and touches no other row |
| TagBulk.BulkLeadsTo | crates/novbot-center/src/tags.rs:1073-1224 | for a whole request list, each key ends as its own request says, judged on the rows before the list |
| TagStore.TagStore.ApplyPlan | crates/novbot-center/src/tags.rs:1299-1374 | the rows are those of the items applied in order, with one event per write |
| TagStore.TagStore.LoadPlans | crates/novbot-center/src/tags.rs:1226-1248 | a right plan for each node, known or not |
| TagStore.TagStore.Bulk | crates/novbot-center/src/tags.rs:626-668 | a dry run, and a missing or wrong confirmation count, write nothing; otherwise exactly what was planned is done |
| TagStore.EachNodeItsPlan | crates/novbot-center/src/tags.rs:1299-1374 | each node gets its own plan on the rows it was made for, other nodes nothing |
| TagStore.ConfirmedIff | crates/novbot-center/src/tags.rs:974-985 | confirmed exactly when no plan touches production or the given number is that of the plans that do |
| TagStore.PlanRecordsWrites | crates/novbot-center/src/tags.rs:1299-1374 | one event for each write, in item order, naming node, key and values |
| TagStore.BulkKeepsOk | crates/novbot-center/src/tags.rs:1073-1224 | every node stays within the cap |
| TagStore.RegisterKeepsOk | crates/novbot-center/src/tags.rs:291-382 | Register leaves center tags and their number as they are |
| TagStore.BulkCounts | crates/novbot-center/src/tags.rs:1258-1297 | each counter is the number of its items, and they add up to all items |
| TagStore.TagStore.Register | crates/novbot-center/src/tags.rs:291-382 | the node's own and the system rows are replaced and a change is reported |
| TagRegister.NodeReportedDetail | crates/novbot-center/src/tags.rs:827-878 | the lists the key loop builds are those of the specification |
| TagRegister.ReportedBelongs | crates/novbot-center/src/tags.rs:827-878 | absent exactly when nothing changed; otherwise every key is listed where it belongs and nowhere else |
| TagRegister.DetailIsPatch | crates/novbot-center/src/tags.rs:827-878 | the lists applied to the old tags give the new ones |
| TagRegister.RegisterRows | crates/novbot-center/src/tags.rs:291-382 | center rows are kept and the node's own rows are exactly the declared ones |
| TagRegister.RegisterSystemRows | crates/novbot-center/src/tags.rs:291-382 | the system rows are exactly the given ones, valid and with their values |
| TagRegister.CenterStaysInEffect | crates/novbot-center/src/tags.rs:880-906 | a value the center supplies stays in effect |
| TagRegister.RegisterAgain | crates/novbot-center/src/tags.rs:291-382 | repeating a Register changes no row and reports nothing |
| Sorting.UniqueSortedIs | console/src/tags/selector.ts:176-178 | the values in ascending order, each once |
| Sorting.StableSortSorts | console/src/tags/selector.ts:68-75 | sorted, and a rearrangement |
| Selector.RequirementIsShape | console/src/tags/selector.ts:134-156 | a requirement is read exactly as one of the five expressions matches it |
| Selector.ParseSetIsShape | console/src/tags/selector.ts:135-146 | left-to-right reading finds exactly what the set expression matches |
| SelectorText.SplitRequirements | console/src/tags/selector.ts:158-174 | the loop computes the scan that the other results are about |
| SelectorText.JoinedSplits | console/src/tags/selector.ts:158-174 | joined labels are split back into the same labels |
| SelectorText.ParseSelector | console/src/tags/selector.ts:107-118 | the loop with its early exit computes the parse |
| SelectorText.GrammarOfIs | console/src/tags/selector.ts:107-118 | the parser that is run is one the results below are about |
| SelectorText.AddChipKeeps | console/src/tags/selector.ts:78-97 | adding keeps chips normal with at most one eq or in chip per key |
| SelectorText.MergeIsUnion | console/src/tags/selector.ts:86-92 | a merged chip allows what either chip allowed |
| SelectorText.RoundTrip | console/src/tags/selector.ts:50-75 | printing well-formed chips and parsing gives them back, sorted as `SortedByKey` says |
| SelectorText.SortIsStable | console/src/tags/selector.ts:72 | chips of one key and operator keep their order |
| SelectorText.LabelOfTwo | console/src/tags/selector.ts:50-66 | the text of an in or notin chip, with its values in order |
| SelectorRoundTrip.ParsedIsWellFormed | console/src/tags/selector.ts:107-132 | whatever parses is normal with at most one eq or in chip per key |
| SelectorRoundTrip.CanonicalIsFixpoint | console/src/tags/selector.ts:68-118 | for any text that parses, the canonical text parses to the same chips ordered by key and then operator, and is its own canonical form |
| SelectorRoundTrip.SortedByKey | console/src/tags/selector.ts:68-75 | sorted chips are in order of their keys and, for one key, of their operator names |
| SelectorRoundTrip.UnreadableIff | console/src/tags/selector.ts:107-118 | a selector is unreadable exactly when one of its parts is |
| SelectorRoundTrip.PaddedPartReads | console/src/tags/selector.ts:107-118 | space around a part does not matter |
| SelectorRoundTrip.TrailingComma | console/src/tags/selector.ts:158-174 | a comma at the very end adds no part |
| SelectorRoundTrip.NothingIsLost | console/src/tags/selector.ts:107-118 | every part that is read is covered by a chip of the result |

## Left out

- Session: a `tokio` channel is a send that succeeds or fails; the frames of live sends are not recorded, because the hub buffers them and nothing is promised of their arrival. What a live send changes in the queue is modelled: a targeted dispatch queues its rows (`Enqueue`) and may mark them at any later time (`MarkLive`).
- Session: the queue is one table for all sessions; two centers on one database are not modelled.
- Calendar.CivilFromDaysExact: the year is an unbounded integer; the cast to 32 bits is not modelled, because no timestamp in use reaches it.
- Queue.PendingQueue.Claim: rows locked by another transaction wait rather than being skipped, because a claim is one step.
- Center.Center.RollbackSkill: the order in which the database returns versions is a parameter, and of equal versions the last is taken, as the program does.
- Center.Center.UninstallSkill: whether a configuration uses the skill is a parameter, because it is read from free-form JSON.
- Center.Center.InstallVersion: target freezing and the production confirmation of skill requests are not modelled; of `targets.rs` only the effect of a targeted dispatch on the queue is.
- Desired.Resolve: nodes are taken in id order from the start, where the program sorts the selected ones.
- Delivery.BuildDesired: the ABI, the policy and the signature envelope are constants or copied columns and are not carried.
- TagStore.TagStore.Register: the classification of declared tags and the normalization of system values are inputs; `crates/novbot-core/src/tags.rs` is not part of this model.
- TagStore.TagStore.Bulk: trimming, sorting and deduplication of the request lists are done before the call.
- Selector.ParseSetIsShape: the regular expressions are written as left-to-right readers; strings are sequences of code units without normalization.
- The setting and deleting of one center tag, which is a bulk edit with one request and an extra precondition.
- Results.ResultStore.StoreReported: what a payload says of denials is an input, because the payload is JSON text; a failure between the two writes is a step of `Session`.
- The parsing of packages (archive, manifest, wasm and scope rules), which is a list of single-branch checks.
- Schedules and specs as JSON, HTTP routing, tokens, license stubs, migrations, deadlock retries and the rest of the console.
- The skill runtime, the probes and the node's own store.
