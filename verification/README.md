# Formicary: a verified model of its coordination core

Formicary is a job orchestrator: a *queen* schedules jobs and remote *ants* run them. This
project models the parts of it where correctness depends on interleavings, histories or
agreement between separately kept data, and proves properties of every run.

- **Multi-party approval** (`Approval*.dfy`). A call of `CastVote` or `HandleSLABreach` is a
  sequence of separate database statements. `ApprovalTables` defines the tables and those
  statements, `ApprovalRuns` interleaves any number of calls (with stale copies of the job
  request and with calls that die half way), `ApprovalSerial` runs calls one after another,
  `ApprovalProgress` says when votes that amount to a decision are acted on,
  `ApprovalContradictions` for which policies votes can contradict each other,
  and `ApprovalService` is the service itself, method by method, tied to those definitions.
- **The WebSocket queue**. `Outbox` is the ant's offline buffer, `AntProtocol` the protocol
  between ant and queen over a network that loses, delays and reorders frames,
  `AntGuarantees` what it guarantees, `Draining` a drain of the buffer turn by turn,
  `AntClient` the client's loops, `Hub` the queen's subscription tables, `HubLocks` its subscribe handlers with the topic objects they hold, and `HubPumps` all its
  handlers by lock section.
- **The LRU cache** (`Lru`, `LruCache`), **permissions** (`Strings`, `Decimals`,
  `Permissions`, `UserPermissions`), and five smaller components: `Rolling`,
  `ContainerRegistry`, `Volumes`, `Polling`, `ScriptRunner`. `Options` and `Ordering` hold
  an option type and a stable sort.

`dafny verify dfyconfig.toml` checks everything.

## Where the code does less than it promises

The model follows the code. Each point is proved, with the condition under which the promise
does hold beside it.

- The rejection rule is documented as rejecting when a quorum has become mathematically
  impossible. A user list that names someone twice is counted by entries, so a hopeless
  vote can stay open (`DuplicateEntryKeepsHopelessVoteOpen`, `RejectionExact`).
- A finaliser finds the task by execution and type and the request by ID and scope. One that
  finds only one of them moves it alone: a vote on another approval task of the execution, whose
  turn may have passed, a stale request that names an earlier execution, or a deadline left over
  from one (`FinalizeMovesPairIff`, `WholeExactly`, `MissedTaskMovesRequestAlone`,
  `OtherTaskReleases`, `LeftoverDeadlineApproves`).
- Approving leaves the job-execution row in its guard state, so a rejection that commits
  after an approval fails the execution of an approved request (`RejectionSplitsExactly`,
  `LateRejectionSplitsCase`, `BreachAfterApprovalSplits`).
- A vote whose call dies after it was saved is not evaluated, and its voter's retry only reads
  the status. If it was the last listed voter, no vote can decide the case any more, as long as
  listed users do not vote under other IDs; an automatic approval or rejection can
  (`LossExactly`, `NoDecisionLost`, `StrandedForGood`, `StrandedCase`).
- A vote is authorised if the context's user is listed, under whatever ID it is cast, and a
  quorum counts IDs. The controllers cast votes under the user's own ID, or without
  authentication under the ID given, and then votes are those of listed users; `CastVote` itself
  does not ask for it (`AuthorizedIsListed`, `CallersVouch`, `UnvouchedVotesDecide`).
- The scheduler's query context for SLA breaches covers only requests without a user
  (`SchedulerContextScope`, `FinalizeMovesPairIff`).
- Under a unanimous policy a vote cast with a stale request can leave a status that is both
  approved and rejected (`StaleRejectionShowsBoth`, `SerialNeverBoth`, `BothExactly`), and votes
  that overlap can put both verdicts to commit, unless the quorum is the whole list
  (`VotesContradict`, `VotesNeverContradict`).
- Draining the offline buffer takes the error frame of a lost connection for an ack and
  drops the message (`ErrorFrameLosesMessage`, `LostExactly`, `NoMessageLost`).
- A subscribe frame that the read pump handles after the write pump has removed the connection
  leaves a subscription without a registered connection, until the read pump removes the
  connection again as it ends (`SubscribeKeepsExactly`, `LateSubscribeStays`, `LeftConnIsGone`).
- A subscribe that finds a topic and inserts into it after the topic was deleted is answered
  with an ID which no topic holds (`CurrentExactly`, `DeletedExactly`, `LastSubscriberLeaves`).
- A failed download of a dependent artifact is reported as fatal, but the set-up returns no
  error, so the task completes if its main script does (`RunScriptPhase`, `FatalIsNoted`).
- A poll that fails without completing delivers its error, yet the poller goes on until its
  context is done (`StopsAtDeliveryExactly`, `FailedLoopPollsOn`).

## Model

| member | source | states |
|---|---|---|
| ApprovalVotes.RejectionExact | queen/approval/service.go:328-357 | for a non-unanimous policy with a user list and at least one rejection: the rule says "rejected" exactly when no further votes of listed users can reach the quorum, and this equivalence itself holds if and only if the quorum does not lie between the number of distinct users and the number of list entries, each less the rejections |
| ApprovalVotes.RejectionExactDistinct | queen/approval/service.go:328-357 | the same equivalence without exception when no list entry is repeated |
| ApprovalVotes.DuplicateEntryKeepsHopelessVoteOpen | queen/approval/service.go:346-356 | a list naming its only user twice, one approval needed: after that user rejects, the rule does not reject although no quorum can be reached |
| ApprovalVotes.PassesExactly | queen/approval/service.go:343-356 | a quorum is within reach exactly when enough listed users have not rejected |
| ApprovalVotes.RejectionStays | queen/approval/service.go:328-357 | no further votes of listed users take a rejection back |
| ApprovalVotes.DecisiveStays | queen/approval/service.go:124-145 | more votes never make a decided count undecided |
| ApprovalVotes.BothExactly | queen/approval/service.go:332-357 | quorum and rejection hold together exactly when there is a rejection, enough approvals, and a policy that is unanimous or lists no users |
| ApprovalVotes.CountsAreVoters | queen/approval/repository_impl.go:98-119 | with one vote per voter, approvals and rejections of a task add up to the number of its voters |
| ApprovalVotes.EveryoneVotedDecides | queen/approval/service.go:124-145 | once exactly the listed users, each listed once, have voted, a quorum between one and their number is decided one way or the other |
| ApprovalTables.CountVotesIsFold | queen/approval/repository_impl.go:88-119 | the grouped count equals the fold over the listed votes, decision by decision |
| ApprovalTables.InsertVoteKeeps | queen/approval/repository_impl.go:60-86 | an insert keeps the old table as a prefix and one vote per voter, adds the voter to the voters of that task only, and lowers no count |
| ApprovalTables.FindBreachedOnlyOpen | queen/approval/repository_impl.go:144-150 | only unresolved, unescalated, overdue rows are returned, and all of them when the limit allows |
| ApprovalTables.FindBreachedEarliest | queen/approval/repository_impl.go:144-150 | what the limit cuts off is due no earlier than what is returned |
| ApprovalTables.ResolveFor | queen/approval/repository_impl.go:166-171 | resolves the rows of one task and leaves the others as they are |
| ApprovalTables.MarkedClosesExactly | queen/approval/repository_impl.go:144-164 | flagging the rows of one ID takes exactly those out of the rows that can be returned as breached |
| ApprovalTables.StatusCounts | queen/approval/service.go:169-205 | when every stored decision is valid, the counts of GetStatus are those of CountVotes |
| ApprovalTables.AdvanceRows | queen/approval/service.go:33-167 | no statement but the finalising transactions touches task, execution or request rows |
| ApprovalRuns.RowFollowsFirstCommit | queen/approval/service.go:360-489 | in every run, whatever requests, executions, types, tasks, policies and scopes the calls name: an awaiting task or request row is where the first committed finaliser that finds it has put it |
| ApprovalRuns.RowsFollowFirstCommits | queen/approval/service.go:360-489 | the same for both rows of a case at once |
| ApprovalRuns.WholeExactly | queen/approval/service.go:360-489 | so in every run task and request agree if and only if the same verdict came first for both |
| ApprovalRuns.FirstCommitWins | queen/approval/service.go:33-167 | for every interleaving of coherent calls, ones whose finaliser finds both rows of the case or neither, with stale requests, changing policies and dying calls: the pair of states is the outcome of the first committed transaction |
| ApprovalRuns.DecidedOnce | queen/approval/service.go:360-489 | in every run each row leaves its awaiting state at most once; with coherent calls the two leave it together for one of the two outcomes and never change again |
| ApprovalRuns.FinalizeMovesPairIff | queen/approval/service.go:360-489 | any finaliser on an awaiting pair: it moves the pair to its outcome exactly when it finds both rows, leaves it exactly when it finds neither, and keeps it whole exactly when the call is coherent; a decided pair it leaves alone |
| ApprovalRuns.MissedTaskMovesRequestAlone | queen/approval/service.go:376-401 | every call that finds the request and misses the task, as one on another task type, an earlier execution or an empty type, moves the request and leaves the task awaiting |
| ApprovalRuns.LeftoverDeadlineApproves | queen/scheduler/job_scheduler_subscription.go:198-221 | a run in which a deadline of an earlier execution makes the request pending while its task awaits approval |
| ApprovalRuns.SchedulerContextScope | queen/scheduler/job_scheduler_subscription.go:196-220 | the context made for SLA breaches covers exactly the requests without a user |
| ApprovalRuns.ExecutionFollowsAnyRejection | queen/approval/service.go:451-462 | in every run an awaiting job execution ends up failed exactly if some rejection that names it commits, first or not |
| ApprovalRuns.LateRejectionSplitsCase | queen/approval/service.go:376-462 | in every run: approved task and request with a failed execution exactly when approvals came first for both rows and some rejection that names the execution commits as well |
| ApprovalRuns.RejectionSplitsExactly | queen/approval/service.go:418-489 | before any rejecting finaliser: it brings the split about exactly when it names the execution, task and request are approved, and the execution row still awaits |
| ApprovalRuns.BreachAfterApprovalSplits | queen/approval/service.go:222-261 | for every vote that reaches the quorum and every automatic rejection of the same execution, a run that ends in the split |
| ApprovalRuns.SplittableCase | queen/approval/service.go:222-261 | a concrete case, vote, breach and run with that end, all calls coherent |
| ApprovalRuns.FirstVoteStays | queen/approval/repository_impl.go:60-86 | in every run the vote table only grows at its end and keeps one vote per voter |
| ApprovalRuns.CommitJustified | queen/approval/service.go:98-145 | when a vote is about to commit, the table as it is at that moment is decisive; an approval has its quorum; a rejection has a rejecting vote, and the rule rejects if the votes fit the user list |
| ApprovalRuns.VotesNeverContradict | queen/approval/service.go:98-145 | for a policy with a user list and no roles, not unanimous or with a quorum of the whole list, with authentication on or off, and votes that are vouched for (if the context's user is listed, so is the ID the vote is cast under): no interleaving puts both an approval and a rejection by vote to commit |
| ApprovalContradictions.VotesContradict | queen/approval/service.go:98-145 | for every unanimous policy with a user list and no roles whose quorum is at least one and less than the number of users: a run of vouched votes from an empty table that puts both an approval and a rejection by vote to commit |
| ApprovalRuns.PoolKept | queen/approval/service.go:287-326 | with a user list, no roles and votes that are vouched for, only listed users ever have votes |
| ApprovalRuns.AuthorizedIsListed | queen/approval/service.go:287-326 | an authorised vote of a policy with a user list and no roles is cast under a listed ID if and only if it is vouched for |
| ApprovalRuns.CallersVouch | queen/controller/job_request_controller.go:150-159 | a vote under the user's own ID, or from a context without a user, is vouched for |
| ApprovalProgress.NoDecisionLost | queen/approval/service.go:84-145 | for every interleaving, with dying calls, policies that change between votes and calls that find only one row: after each step a decision that the votes amount to under the policy of the vote saved last, and that the row in question still awaits, has a call in flight bound to take it, if and only if no step killed the only such call |
| ApprovalProgress.LossExactly | queen/approval/service.go:84-145 | one step loses a decision that a row awaits exactly when it kills the only call bound to take it |
| ApprovalProgress.LossKillsEvaluation | queen/approval/service.go:94-145 | a loss takes a call that dies after saving its vote and before finishing |
| ApprovalProgress.QuiescentDecided | queen/approval/service.go:84-145 | when every call has returned or died and the votes amount to a decision under the policy of the vote saved last, a verdict was committed for the task row, and one for the request row, unless such a loss happened |
| ApprovalProgress.EveryoneVotedDecided | queen/approval/service.go:84-145 | so task and request are decided once all listed users have voted and every call has returned or died, unless such a loss happened, if the quorum fits a list of distinct users without roles, and the votes carry that policy and are vouched for |
| ApprovalProgress.StrandedForGood | queen/approval/service.go:72-77 | once all listed users have voted and no call is about to save or decide, no run of votes that are vouched for, of retries and of escalations changes task or request again |
| ApprovalProgress.DyingLastVoteStrands | queen/approval/service.go:94-101 | a run that gets there with the pair unchanged: the last listed voter's call, with authentication on or off, dies after its vote is saved |
| ApprovalProgress.StrandedCase | queen/approval/service.go:94-101 | a concrete such run whose votes amount to an approval |
| ApprovalRuns.HandledDeadlineNeverBreached | queen/approval/repository_impl.go:144-164 | a deadline once resolved or escalated is never returned as breached again |
| ApprovalRuns.DeadlinesOnlyGrow | queen/approval/repository_impl.go:130-171 | in every run deadlines are only added, and resolved and escalated are never unset |
| ApprovalRuns.BreachMarksDeadline | queen/approval/service.go:230-260 | the last statement of the breach handler leaves every row of its deadline resolved or escalated |
| ApprovalRuns.CommitClosesDeadlines | queen/approval/service.go:403-412 | after a commit whose deadline update succeeds, no deadline of its task is breached, every breached one was there unchanged before, and the deadlines of other tasks are all kept |
| ApprovalSerial.ServeVote | queen/approval/service.go:84-166 | a first, well-formed, authorised vote is appended, and the tables are finalised exactly when the counts that include it decide |
| ApprovalSerial.ServeNoVote | queen/approval/service.go:45-82 | refused, repeated and uncommented rejecting votes change nothing; a repeated one returns the current status and the others their error |
| ApprovalSerial.ServeSla | queen/approval/service.go:221-261 | tables after a breach: approved or rejected with the deadline resolved, or only the deadline escalated |
| ApprovalSerial.ServeIsRun | queen/approval/service.go:33-167 | a call served alone is a run of the interleaving machine |
| ApprovalSerial.SerialNeverBoth | queen/approval/service.go:169-205 | for every policy: when calls do not overlap, and each vote on the task names its case, its policy and the request's current state, the status never reports both verdicts, whatever the other calls name |
| ApprovalSerial.SerialDecidedByLastVoter | queen/approval/service.go:98-145 | in the same runs the request has left its awaiting state once all listed users have voted, if the quorum fits a list of distinct users; with coherent calls task and request are settled together |
| ApprovalSerial.OneVoteOneVerdict | queen/approval/service.go:124-145 | one vote on undecided counts cannot bring about both verdicts |
| ApprovalSerial.StaleRejectionShowsBoth | queen/approval/service.go:61-65 | unanimous policy with one approval needed: an approval and then a rejection whose request was loaded before it leave a status with both verdicts |
| ApprovalSerial.OtherTaskReleases | queen/manager/job_manager.go:907-912 | a vote that reaches the quorum of another task of the execution makes the request pending while the case's own task awaits, without a vote on it |
| ApprovalSerial.OtherTaskCase | queen/manager/job_manager.go:907-912 | a concrete case and vote with that end, the request loaded just before |
| ApprovalSerial.UnvouchedVotesDecide | queen/approval/service.go:307-312 | two votes of one listed user under two unlisted IDs reach a quorum of two, and no listed user has a vote |
| ApprovalSerial.UnvouchedCase | queen/approval/service.go:307-312 | a concrete case and two such votes |
| ApprovalService.Service.SaveVote | queen/approval/repository_impl.go:60-86 | inserts unless the voter has a vote, and returns the stored row |
| ApprovalService.Service.CountVotes | queen/approval/repository_impl.go:98-119 | counts per decision |
| ApprovalService.Service.CountRows | queen/approval/repository_impl.go:121-128 | positive exactly when the voter has voted |
| ApprovalService.Service.GetStatus | queen/approval/service.go:169-205 | the status of the vote table; its counts are the table's when every stored decision is valid |
| ApprovalService.Service.CastVote | queen/approval/service.go:33-167 | the statements in turn leave the tables and the reply of the call served alone, to which ServeIsRun and the run theorems apply; a missing request is refused |
| ApprovalService.Service.HandleSLABreach | queen/approval/service.go:221-261 | tables and reply of the breach served alone |
| ApprovalService.Service.CreateDeadlineIfNeeded | queen/approval/service.go:263-281 | nothing without a positive SLA; otherwise one open row under a new ID, with escalation as the default action, that counts as breached exactly after its time |
| ApprovalService.Service.MarkDeadlineResolved | queen/approval/repository_impl.go:152-157 | rows of that ID become resolved and drop out of the open ones, which otherwise stay exactly the same; every other row keeps its place and content |
| ApprovalService.Service.MarkDeadlineEscalated | queen/approval/repository_impl.go:159-164 | rows of that ID become escalated and drop out of the open ones, which otherwise stay exactly the same; every other row keeps its place and content |
| ApprovalService.Service.Evaluate | queen/approval/service.go:98-166 | the half of CastVote after the vote is saved: finalises exactly when the counts decide |
| Outbox.RefinesLedger | internal/queue/websocket_buffer_sqlite.go:72-136 | every answer of the buffer is that of a ledger that never deletes: the live unremoved rows in enqueue order |
| Outbox.RunKeepsOrder | internal/queue/websocket_buffer_sqlite.go:72-136 | in every run the live rows never exceed the limit, IDs increase and expiry times do not decrease |
| Outbox.ExpiredRowsArePrefix | internal/queue/websocket_buffer_sqlite.go:97-109 | expired rows form a prefix |
| Outbox.OfflineBuffer.EnqueueMessage | internal/queue/websocket_buffer_sqlite.go:72-95 | new buffer and answer are those of the Enqueue that RefinesLedger speaks about |
| Outbox.OfflineBuffer.DequeueAll | internal/queue/websocket_buffer_sqlite.go:97-128 | new buffer and rows returned are those of the Dequeue that RefinesLedger speaks about |
| Outbox.OfflineBuffer.RemoveRow | internal/queue/websocket_buffer_sqlite.go:130-136 | new buffer is that of the Remove that RefinesLedger speaks about |
| Outbox.OfflineBuffer.Count | internal/queue/websocket_buffer_sqlite.go:145-149 | the number of live rows |
| AntProtocol.RunKeepsInv | internal/queue/client_websocket_client.go:405-584 | in every run, whatever the network does: replies are justified by frames, waiters never share a frame ID, and stored rows are in the buffer, expired, dropped or handled |
| AntGuarantees.AcceptedIsHandledOrStored | internal/queue/client_websocket_client.go:550-584 | a send that succeeded was handled by the queen or buffered |
| AntGuarantees.RowLeavesExactly | internal/queue/client_websocket_client.go:455-485 | a buffered row leaves if and only if it expires or a reply to a frame carrying it was taken |
| AntGuarantees.LostExactly | internal/queue/client_websocket_client.go:471-479 | in every run a stored row is lost exactly when it expired or was removed after an error frame, and the queen has not handled its message |
| AntGuarantees.NoMessageLost | internal/queue/client_websocket_client.go:455-485 | if no row is removed after an error frame and none expires, every message whose Send succeeded has been handled or is still in the buffer |
| AntGuarantees.ErrorFrameLosesMessage | internal/queue/client_websocket_client.go:221-230 | a run that loses an accepted message to an error frame |
| AntGuarantees.ReplyIsOwn | internal/queue/client_websocket_client.go:268-282 | a waiter is only handed a reply to its own frame |
| AntGuarantees.RepliedOnce | internal/queue/client_websocket_client.go:405-433 | a waiter is handed at most one reply |
| AntGuarantees.FailedWaiterHasFrame | internal/queue/client_websocket_client.go:216-236 | after the pending table was failed, whoever was in it and still waits has a frame in its slot |
| Draining.DrainKeeps | internal/queue/client_websocket_client.go:453-485 | in every drain, failing removals included: no row goes missing, expiry takes rows only from the front, none is passed over, a row is published again only after a turn that did not remove it, first publications are in buffer order, one message goes out per turn, and the drain ends only on an empty buffer, a lost connection or a missing reply |
| Draining.DrainLeavesTail | internal/queue/client_websocket_client.go:453-485 | if no removal fails, messages go out in buffer order without repeats and a tail of the rows is left |
| AntClient.Client.TriggerReconnect | internal/queue/client_websocket_client.go:216-236 | the client afterwards mirrors the protocol state after Disconnect and FailPending: every free pending slot is filled and the table is empty |
| AntClient.Client.DispatchReply | internal/queue/client_websocket_client.go:273-282 | the client afterwards mirrors the protocol state after the look-up and, if it finds a waiter, the put: the reply goes to the registered waiter's free slot and nowhere else |
| AntClient.Client.DrainBatch | internal/queue/client_websocket_client.go:467-480 | buffer, messages published and turns used are those of the session's turns; the batch is used up unless the drain ends |
| AntClient.Client.DrainBuffer | internal/queue/client_websocket_client.go:453-485 | buffer, messages published, turns used and the empty flag are those of the drain that DrainKeeps and DrainLeavesTail speak about |
| Hub.SubscribeKeepsExactly | internal/queue/client_websocket_server.go:565-598 | a subscribe keeps every subscription with a registered connection if and only if its own connection is registered |
| Hub.RemoveConnKeeps | internal/queue/client_websocket_server.go:644-674 | removeConn keeps the two indexes consistent |
| Hub.UnsubscribeKeeps | internal/queue/client_websocket_server.go:600-617 | an unsubscribe frame keeps them consistent, whatever ID and topic it names |
| Hub.LocalsKeep | internal/queue/client_websocket_server.go:241-289 | so do local subscribe, unsubscribe and topic creation |
| Hub.RemovedConnIsGone | internal/queue/client_websocket_server.go:644-674 | after removeConn no topic refers to the connection, even one that was removed before and has subscribed since |
| Hub.RemoveConnTwice | internal/queue/client_websocket_server.go:644-674 | a second removeConn with nothing in between changes nothing |
| Hub.ListIsOwn | internal/queue/client_websocket_server.go:652-671 | for a subscription in force, a connection's list names its ID exactly when it belongs to that connection |
| Hub.RunAgrees | internal/queue/client_websocket_server.go:565-674 | in every run, with subscribe frames of connections that have left and with orphaned subscribes, both indexes are consistent and the topics hold exactly the subscriptions in force by the event log |
| Hub.LeftConnIsGone | internal/queue/client_websocket_server.go:502-504 | after a connection's removal with no subscribe of it behind, no topic refers to it for the rest of the run |
| Hub.LateSubscribeStays | internal/queue/client_websocket_server.go:565-598 | a subscribe of a connection that has left leaves a subscription without a registered connection, and the next removal takes it away |
| Hub.SubscribedTopicExists | internal/queue/client_websocket_server.go:443-453 | in the same runs the topic of every remote or local subscription in force exists |
| HubLocks.RefinesHub | internal/queue/client_websocket_server.go:565-598 | every run of single lock sections is a run of whole handlers, in which a subscribe whose topic object has left the table is an orphan |
| HubLocks.RunAgreesLocked | internal/queue/client_websocket_server.go:565-598 | so in every run of lock sections the topics hold exactly the subscriptions in force, orphans not among them |
| HubLocks.CurrentExactly | internal/queue/client_websocket_server.go:574-579 | between the two sections of a subscribe the topic object found is still the one in the table if and only if the topic was there throughout; one created again does not help |
| HubLocks.DeletedExactly | internal/queue/client_websocket_server.go:443-453 | a topic is deleted exactly when its last subscriber goes with a connection that lists it or unsubscribes locally |
| HubLocks.LastSubscriberLeaves | internal/queue/client_websocket_server.go:574-582 | when the last subscriber leaves between the sections, the other connection's subscribe yields an ID on its list that no topic holds |
| HubPumps.RunKeepsInv | internal/queue/client_websocket_server.go:565-674 | in every interleaving of single lock sections of all pumps: a subscription in a topic is on its connection's list or about to be, and on the copy of its read pump's removal; lists and copies hold only the connection's own IDs |
| HubPumps.EndedIsGone | internal/queue/client_websocket_server.go:503-518 | once a connection's read pump has ended, no topic refers to the connection, whatever its write pump does |
| HubPumps.LeavesExactly | internal/queue/client_websocket_server.go:600-674 | a subscription leaves its topic exactly when an unsubscribe frame names it or a removal of its own connection has it on its copy |
| Hub.Server.AcceptConn | internal/queue/client_websocket_server.go:214-239 | registers a connection under a new ID with an empty list |
| Hub.Server.HandleSubscribeFrame | internal/queue/client_websocket_server.go:565-598 | registers in both indexes under a fresh ID |
| Hub.Server.HandleUnsubscribeFrame | internal/queue/client_websocket_server.go:600-617 | removes the ID from the topic and from the sender's list |
| Hub.Server.RemoveSubLoop | internal/queue/client_websocket_server.go:49-62 | drops the first occurrence and an emptied topic |
| Hub.Server.GetOrCreateTopic | internal/queue/client_websocket_server.go:455-470 | creates only a missing topic |
| Hub.Server.MaybeDeleteTopic | internal/queue/client_websocket_server.go:443-453 | deletes only a topic without subscribers |
| Hub.Server.RemoveConnection | internal/queue/client_websocket_server.go:644-674 | unregisters, and cleans every topic on the connection's list |
| Lru.TraceIncluded | internal/utils/lru.go:48-97 | for sizes 0 < n <= m and any trace of Add, Get, Peek and Contains, the smaller cache is a subsequence of the larger, and equal to it until it is full |
| Lru.HitIncluded | internal/utils/lru.go:70-80 | a hit in the smaller cache is a hit in the larger with the same value |
| Lru.TraceConserves | internal/utils/lru.go:37-175 | keys stay distinct, and keys inserted are keys present plus keys passed to the callback |
| Lru.TraceBounded | internal/utils/lru.go:48-68 | with a positive size and only positive resizes no trace exceeds the size |
| LruCache.LruCache.constructor | internal/utils/lru.go:24-35 | an empty cache, of size 10000 if the size given is not positive |
| LruCache.LruCache.Add | internal/utils/lru.go:48-68 | list, index and callback log refine the Add of the trace theorems; it evicts exactly for a new key on a full cache |
| LruCache.LruCache.Get | internal/utils/lru.go:70-80 | refines the Get of the trace theorems and returns the value looked up |
| LruCache.LruCache.Contains | internal/utils/lru.go:82-87 | membership |
| LruCache.LruCache.Peek | internal/utils/lru.go:89-97 | the value, without touching the order |
| LruCache.LruCache.Remove | internal/utils/lru.go:99-107 | refines the Remove of the trace theorems; true exactly for a present key |
| LruCache.LruCache.RemoveOldest | internal/utils/lru.go:109-118 | the last entry of the recency list goes and is returned |
| LruCache.LruCache.GetOldest | internal/utils/lru.go:120-128 | the last entry of the recency list |
| LruCache.LruCache.KeyList | internal/utils/lru.go:130-139 | keys from oldest to newest |
| LruCache.LruCache.Resize | internal/utils/lru.go:146-157 | refines the Resize of the trace theorems; the count returned is the excess over the new size, which a negative size makes larger than the number evicted |
| LruCache.LruCache.Purge | internal/utils/lru.go:37-46 | leaves the cache empty, and the callback is told every key it held, once |
| LruCache.LruCache.RemoveElement | internal/utils/lru.go:167-175 | drops the element from list and index, keeps the order of the rest, and tells the callback |
| Decimals.AtoiItoa | internal/acl/permission.go:154-157 | reading a printed number gives it back exactly when it is an int |
| Permissions.RoundTripExactly | internal/acl/permission.go:247-279 | unmarshal undoes marshal exactly for clean names and numbers in range |
| Permissions.RereadSame | internal/acl/permission.go:262-279 | unmarshal, marshal, unmarshal equals unmarshal on every text |
| Permissions.UnmarshalClean | internal/acl/permission.go:262-279 | whatever the text, what is read from it has clean names and numbers in range |
| Permissions.BackfillReads | internal/types/user.go:333-352 | the back-filled text reads as the old permissions followed by the missing defaults |
| Permissions.BackfillIdempotent | internal/types/user.go:333-352 | with clean defaults a second back-fill leaves the text as it is |
| Permissions.BackfillFills | internal/types/user.go:333-352 | every default resource is present afterwards |
| Permissions.BackfillGrantsExactly | internal/types/user.go:333-352 | nothing is revoked, and only the defaults of unmentioned resources are granted |
| Permissions.DefaultsClean | internal/acl/permission.go:354-382 | the defaults survive the text form and hold no wildcard |
| Permissions.CoversBits | internal/acl/permission.go:133-136 | the test of a permission is bit by bit: every bit of the action is a bit of the permission |
| UserPermissions.MarshalPermissions | internal/acl/permission.go:247-260 | the loop writes the text form |
| UserPermissions.UnmarshalPermissions | internal/acl/permission.go:262-279 | the loop reads the text form |
| UserPermissions.NewPermissions | internal/acl/permission.go:287-299 | the store answers as the list does: last entry wins, wildcard noted |
| UserPermissions.StoreGrants | internal/acl/permission.go:301-311 | the store built from a list grants exactly what the list does |
| UserPermissions.User.GetPermissions | internal/types/user.go:315-321 | the store, cached or built now, represents the current text |
| UserPermissions.User.HasPermission | internal/types/user.go:328-331 | the cached store answers for the current text |
| UserPermissions.User.BackfillDefaultPermissions | internal/types/user.go:333-352 | the back-filled text, with the cache kept consistent |
| Rolling.RollingAverage.Add | internal/math/rolling_average.go:24-41 | keeps the ring equal to the latest positive inputs and the total equal to their sum in wrapping int64 arithmetic |
| Rolling.RollingAverage.TotalIsWindowSum | internal/math/rolling_average.go:24-47 | the length is the window's, and the total its sum when that fits |
| Rolling.RollingMinMax.Add | internal/math/rolling_min_max.go:20-25 | minimum and maximum are the extremes of all inputs ever added and their initial values; the average takes the positive inputs |
| Rolling.RollingMinMax.AverageBetween | internal/math/rolling_min_max.go:20-25 | once a positive input was seen, and unless the window's sum overflows, the average lies between minimum and maximum |
| ContainerRegistry.Registry.UpdateContainer | ants/registry/ant_containers_registry.go:106-139 | keeps the table equal to the containers whose last logged event is STARTED; other states than started and terminal are refused |
| ContainerRegistry.Registry.RegisterAnt | ants/registry/ant_containers_registry.go:179-202 | the latest registration of each ant is kept |
| ContainerRegistry.Registry.CheckIfAlreadyRunning | ants/registry/ant_containers_registry.go:151-176 | by the event log: not there unless the last word is STARTED; good exactly when its ant is registered and started before it |
| ContainerRegistry.Registry.PreExecute | ants/handler/request_handler.go:63-87 | refuses exactly when the log says the container runs under a good ant, and stops exactly the other running ones |
| ContainerRegistry.KeyInjective | internal/events/container_event.go:116-119 | two keys are equal only for the same method and container, if method names have no colon |
| Volumes.MountsHaveVolumes | internal/types/kubernetes.go:197-331 | names are unique, mounts are the first volumes, and each pair is made from the same entry |
| Volumes.KeptIsFirst | internal/types/kubernetes.go:297-312 | an entry is kept exactly when it is the first of its name |
| Volumes.AddVolumeMount | internal/types/kubernetes.go:197-204 | appends unless a mount of that name is there |
| Volumes.AddVolume | internal/types/kubernetes.go:297-304 | appends unless a volume of that name is there |
| Volumes.GetVolumeMounts | internal/types/kubernetes.go:251-295 | the mounts of the kept entries |
| Volumes.GetVolumes | internal/types/kubernetes.go:314-331 | the volumes of the kept entries |
| Polling.Task.InvokeHandlerAndCheckCompletion | internal/async/async_polling.go:68-89 | what was sent is the first deciding poll's response, at most once; the channel is closed exactly after it, and no send blocks or follows the close |
| Polling.Task.Receive | internal/async/async_polling.go:53-65 | what the awaiter takes from the channel is the first deciding poll's response |
| Polling.Task.Run | internal/async/async_polling.go:91-105 | the polls the loop makes, single delivery kept throughout |
| Polling.Task.RunWithSignal | internal/async/async_polling_event.go:55-71 | the same for the loop that wakes on signals, and the sequence of its waits |
| Polling.Task.WaitsGrow | internal/async/async_polling_event.go:67-67 | for a non-negative interval waits never shrink and never exceed the maximum |
| Polling.FirstDecisionAt | internal/async/async_polling.go:79-87 | the response delivered is that of the first poll that completed, failed or saw the cancellation |
| Polling.StopsAtDeliveryExactly | internal/async/async_polling.go:91-105 | the loop ends with the turn that delivers if and only if that poll completes or sees a cancelled context, or the context is done right after it |
| Polling.FailedLoopPollsOn | internal/async/async_polling.go:79-105 | after a poll that failed without completing, the loop ends exactly when the context is done, one poll per turn until then, whatever later polls return |
| ScriptRunner.ExitCodeLastPositive | ants/handler/request_executor.go:274-276 | if any command had a positive exit code, the last of these is reported |
| ScriptRunner.ExitCodeFirst | ants/handler/request_executor.go:274-276 | without a positive exit code it is that of the first command |
| ScriptRunner.FailedCommandMeaning | ants/handler/request_executor.go:281-283 | the failed command is the first failing one whose masked text is not empty |
| ScriptRunner.RunUntilFailurePrefix | ants/handler/request_executor.go:290-296 | nothing runs after the first failure |
| ScriptRunner.FatalIsNoted | internal/types/task_response.go:159-171 | reports fail a response that has not failed exactly when a fatal one is not blank, and then the trimmed text of the first such report becomes the message |
| ScriptRunner.FatalTextAt | internal/types/task_response.go:159-171 | which text that is: that of the first fatal report that is not blank |
| ScriptRunner.TaskResponse.RunCommand | ants/handler/request_executor.go:253-288 | keeps exit code and failed command those of the commands run so far |
| ScriptRunner.TaskResponse.RunStrict | ants/handler/request_executor.go:226-350 | runs up to and including the first failure; no error exactly when all commands succeeded and the context is live |
| ScriptRunner.TaskResponse.RunAll | ants/handler/request_executor.go:226-350 | runs every command; no error exactly when all succeeded and the context is live |
| ScriptRunner.TaskResponse.RunScriptPhase | ants/handler/request_executor.go:147-183 | COMPLETED exactly when before script, set-up and main script all return no error, otherwise FAILED, whatever the set-up reported as fatal; which commands ran; which warnings are added; a completed response keeps the message of a fatal report |
| ScriptRunner.TaskResponse.FinishTask | ants/handler/request_executor.go:190-223 | afterwards the status changes only to FAILED, exactly on a fatal finding |
| ScriptRunner.TaskResponse.AdditionalError | internal/types/task_response.go:159-171 | blank text changes nothing; a fatal error leaves FAILED and sets the message the first time; anything else is added to the warnings |

## Left out

- SQL, gorm, SQLite, JSON, sockets, timers and ULIDs: tables, sequences, a clock that the environment reads out, and IDs numbered as they are issued stand in for them.
- The scheduler, resource manager, web server, gRPC, tracing, metrics, Docker and Kubernetes execution, artifact transfer: input and output or calls into other systems.
- Kafka, Pulsar and Redis clients, and the in-process channel client with its retries.
- A policy's comma-separated users and roles are taken as the lists they are split into, and a user's roles as the set of roles that `HasRole` accepts.
- Escalation messages, user keys, and the text, timestamps and codes that the finalisers write beside the state.
- `FindPendingApprovals`, `SavePolicy`: paging and storage only.
- HubLocks.RefinesHub: removals and unsubscribes, which take several locks in turn, are one step each; their sections are in HubPumps.
- HubLocks.RunAgreesLocked: the same two handlers are one step each.
- HubPumps.RunKeepsInv: local subscribers are any set that changes in any way, and the two sections of a local subscribe are in HubLocks.
- Delivery of messages to subscribers' callbacks, and the ant's table of server-assigned subscription IDs.
- AntProtocol.RunKeepsInv: the buffer being closed is a failing database operation; the reconnect delay and its jitter are not modelled.
- Draining.DrainKeeps: one drain at a time, whose queries succeed; several at once and failing queries are covered in AntProtocol.
- LruCache.LruCache.Add: pointers to list elements are handles into a store; keys and values are named records instead of arbitrary values.
- Rolling.RollingAverage.Average: computed over the reals, without floating-point rounding.
- Polling.Task.WaitsGrow: the product of polls and interval does not overflow an int64.
- Volumes.GetVolumes: the sources of a projected volume are opaque, and the items of a secret or config map are a map instead of a list in map order.
- ScriptRunner.TaskResponse.RunScriptPhase: pre-processing, captured output, exit messages and job-context variables; error and reports of the artifact set-up are whatever that code makes.
