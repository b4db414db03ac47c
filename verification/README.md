# Multi-bot agent runtime: a verified model

This project models the parts of the runtime that are hard to get right, and proves what they keep.

- **Runs** (`Lifecycle`, `EventLog`, `DecisionEngine`, `RunSpec`, `Runner`, `RunProofs`, `RunHistory`, `Chronicle`,
  `RunAnswers`, `Checkpoints`, `CrashResume`, `ToolHistory`). `RunSpec` says as functions what one invocation of the
  bounded Observe-Decide-Act loop does: which rows it logs and with which verdict it ends. `Runner` is the loop itself
  over a mutable scope, state machine and log, proved to do exactly that. The provider, the tools, the cancellation
  file and the id generator are the functions of a `World`; each may depend on the step in any way, so a statement for
  every `World` covers every behaviour. A crash is a cut of the log at any row. The main results are that every row of
  a log is explained by the rows before it and by what the surroundings did, that crashes and resumptions cannot be
  noticed in the outcome, that each tool call is completed once, that every action was asked for by the model output
  just before it, and that a run ends exactly once, with the answer it observed last.
- **MCP client** (`McpRouting`, `McpNegotiation`, `McpOutcomes`, `McpListing`). Routing is a transition system whose
  steps are the critical sections of the client, interleaved with servers that are killed, replaced and still printing:
  no caller is given what is not for it, and every caller is given what is, or told why not. Negotiation is the probe
  loop and the legacy handshake that call each other, over an arbitrary server; it is characterised by the replies
  heard, success and failure alike.
- **Algorithms** (`Base58`, `Calendar`, `Cron`, `CronSearch`, `CronExpression`, `Dependencies`, `PlanOrder`,
  `ToolCallWave`, `Utf8Cap`, `Calculator`, `ToolNames`, `ReplayDiff`): each has an independent definition of what it is
  for, and the loops are proved against it.
- **Schedulers and limiters** (`RateLimit`, `Fairness`, `InFlight`, `WriteLease`), judged against whole histories of calls.

`Text`, `Selection`, `Numerals`, `BitLengths` and `Arithmetic` hold what the others share about strings, lists and integers.

Where the code and its documentation part:

- The edge-building loop of the plan resolver charges every edge to the step that was declared last. The model keeps
  that. `PlanOrder` proves the documented contract for edges charged to their owner, the closed form of what is shipped,
  and exactly when the two agree.
- In hard mode the fairness scheduler judges the count before the turn, so the skew can exceed `max_skew` by one. The true
  bound, and exactly when the documented one holds, are proved.
- `retry_after` is the wait after which the oldest call is still just inside the window; a retry at that very instant is
  refused again.
- The name patterns end in `$`, which also matches before a final line feed. A remote tool name with one is registered,
  and no directive can name it.
- The power guard of the calculator judges by bit length, so it also refuses some powers that are within the limit it
  names, such as (2^70)^58. For which bit lengths and exponents it is right, and how far it can miss, are proved.
- A kill between a tool's request row and the checkpoint after it makes the resumed run ask for that tool again.
- A cron expression for one minute of 29 February has only four fires around a century year that is not leap, one fewer
  than the default count.

Conventions: messages that the runtime composes are constructors that carry their variable parts, so different messages
differ by construction. `hide` at the head of a proof lists the definitions that the proof does not look into.

## Model

| member | source | states |
|---|---|---|
| `Lifecycle.RunStateMachine.TransitionTo` | src/multi_bot_agentic/lifecycle.py:31-48 | moves only along the table and reports the pair; a refused move leaves the state |
| `Lifecycle.TerminalStatesAbsorb` | src/multi_bot_agentic/lifecycle.py:14-22 | a terminal state can only end a legal path, and exactly the other states can still fail or be cancelled |
| `Lifecycle.MovesAreExact` | src/multi_bot_agentic/lifecycle.py:14-22 | which state leads where, for every pair of states |
| `Lifecycle.SuccessNeedsADecision` | src/multi_bot_agentic/lifecycle.py:14-22 | every legal path from created to succeeded goes through observing and deciding |
| `EventLog.SQLiteEventLog.Append` | src/multi_bot_agentic/event_log.py:58-95 | adds one row with the next number of its run and touches no other row |
| `EventLog.SQLiteEventLog.ListEvents` | src/multi_bot_agentic/event_log.py:97-127 | returns exactly the events of the run, in order |
| `EventLog.MaxSeqCountsRows` | src/multi_bot_agentic/event_log.py:134-148 | in a dense log the highest number of a run is the number of its rows |
| `EventLog.AppendedStaysDense` | src/multi_bot_agentic/event_log.py:58-95 | appending keeps the numbers of every run 1, 2, 3, ... without gaps |
| `EventLog.AppendedIsIsolated` | src/multi_bot_agentic/event_log.py:58-95 | appending for one run leaves what is listed for every other run unchanged |
| `DecisionEngine.ParseDirectiveIsExact` | src/multi_bot_agentic/decision.py:230-268 | the parser accepts exactly: anything, a colon-free name that is not blank, and a rest that is not blank - further colons belong to the rest |
| `DecisionEngine.DirectiveRoundTrip` | src/multi_bot_agentic/decision.py:230-268 | a printed directive is read back as the same name and payload |
| `DecisionEngine.LatestByPrefix` | src/multi_bot_agentic/decision.py:210-227 | finds the last observation with the prefix, or none exists |
| `DecisionEngine.DecideActsOnLatestOutput` | src/multi_bot_agentic/decision.py:49-207 | a tool call or a handoff is decided only when the very latest observation is the model output whose directive asks for it, in the allowlist or the registry |
| `DecisionEngine.DecisionIsExact` | src/multi_bot_agentic/decision.py:63-207 | before the last step: finish exactly on a DONE of the model, with the stripped rest; a tool or a bot exactly when a well-formed directive asks for one in scope, with its name and text; a failure exactly for an unknown bot; the model otherwise |
| `DecisionEngine.LastStepAnswers` | src/multi_bot_agentic/decision.py:36-61 | a cancellation is obeyed first, and the last step answers with the latest observation without its mark |
| `DecisionEngine.ReasonIsExact` | src/multi_bot_agentic/decision.py:63-207 | for every situation the reason and the rule that the decision names |
| `Runner.AgentRunner.Create` | src/multi_bot_agentic/runner.py:118-135 | an initially active bot must be registered, and then sets the scope |
| `Runner.AgentRunner.Move` | src/multi_bot_agentic/runner.py:403-423 | one legal move and its row, or nothing at all |
| `Runner.AgentRunner.End` | src/multi_bot_agentic/runner.py:425-509 | one move into the final state and one terminal row |
| `Runner.AgentRunner.PerformHandoff` | src/multi_bot_agentic/runner.py:291-331 | swaps the active bot and the allowlist, logs it, and yields the observation; a missing bot changes nothing |
| `Runner.AgentRunner.PerformAct` | src/multi_bot_agentic/runner.py:333-391 | one request row, one effect of provider or tool, and the observation or the error; what these hold is stated over the log in Chronicle |
| `Runner.AgentRunner.Iterate` | src/multi_bot_agentic/runner.py:229-284 | one pass of the loop appends exactly the rows of the specified step and leaves its scope and state |
| `Runner.AgentRunner.RunLoop` | src/multi_bot_agentic/runner.py:208-289 | the loop over mutable state refines the recursive specification: same rows, same verdict |
| `Runner.AgentRunner.Run` | src/multi_bot_agentic/runner.py:137-158 | a refused goal logs nothing; otherwise the log grows by exactly the specified run |
| `Runner.AgentRunner.Resume` | src/multi_bot_agentic/runner.py:160-206 | a finished run is reported without a row, an unusable one refused without a row, any other continued from its latest checkpoint |
| `Runner.ReadOutcome` | src/multi_bot_agentic/runner.py:57-88 | the forward scan returns the latest terminal event |
| `Runner.LoadLatestCheckpoint` | src/multi_bot_agentic/checkpoint.py:113-139 | the forward scan returns the latest checkpoint |
| `RunProofs.RunFollowsLifecycle` | src/multi_bot_agentic/runner.py:229-289 | over every run, whatever its surroundings do, the logged moves form a legal lifecycle path and every row carries the state the machine was in |
| `RunProofs.LoopFollowsLifecycle` | src/multi_bot_agentic/runner.py:229-289 | the same for every loop, resumed ones included |
| `RunProofs.LoopEndsOnce` | src/multi_bot_agentic/runner.py:425-509 | every loop logs exactly one terminal event, as its last row, and it records the verdict |
| `RunProofs.FinishedRunIsRecorded` | src/multi_bot_agentic/runner.py:57-88 | the recorded outcome of a completed run is its state, answer and steps, and resuming it later starts nothing |
| `RunProofs.ResumeIsIdempotent` | src/multi_bot_agentic/runner.py:160-206 | a second resumption after any first one appends nothing and reports the same outcome |
| `RunProofs.OutcomeIsLatest` | src/multi_bot_agentic/runner.py:57-88 | the recorded outcome is the one of the last terminal row, if there is any |
| `RunProofs.CheckpointIsLatest` | src/multi_bot_agentic/checkpoint.py:113-139 | the checkpoint that is loaded is the last one, if there is any |
| `RunProofs.GoalIsAcceptedIff` | src/multi_bot_agentic/safety.py:156-169 | a goal is accepted exactly when it is not only white space and not too long |
| `RunProofs.ResumeIsExact` | src/multi_bot_agentic/runner.py:160-206 | read off the log: the last outcome is reported; else the loop goes on from the last checkpoint with its step and the tools of its bot, exactly when that checkpoint is usable |
| `Chronicle.LoopIsExplained` | src/multi_bot_agentic/runner.py:208-391 | every row of a loop stands in its place: a decision is made from what the rows before it list and nothing else, and the rows after it carry it out - what the model or the tool gives for the request is logged and remembered word for word, a failure ends the run with its reason |
| `Chronicle.RunIsExplained` | src/multi_bot_agentic/runner.py:137-158 | the same for a fresh run, which starts from the goal as the user gave it |
| `Chronicle.ResultsAreKept` | src/multi_bot_agentic/runner.py:333-391 | a tool row holds what the tool returned for the name and text of the request before it and the next checkpoint adds exactly that; likewise for the model, which was offered the tools in scope |
| `RunAnswers.LoopAnswers` | src/multi_bot_agentic/decision.py:49-207 | a run that succeeds answers with what it observed last, without the mark: the model said DONE, or it was the last step |
| `RunHistory.LatestIsLastSnapshot` | src/multi_bot_agentic/checkpoint.py:113-139 | the backward definition of the latest checkpoint agrees with the list of all checkpoints |
| `RunHistory.CheckpointsAreCursors` | src/multi_bot_agentic/runner.py:275-283 | the checkpoints in the log are exactly the loop states, in order, none missing |
| `RunHistory.GrownIsFromRun` | src/multi_bot_agentic/decision.py:49-207 | observations that obey the run grammar start with the goal and hold only model, tool and handoff observations |
| `RunHistory.ModelSpeaksInBetween` | src/multi_bot_agentic/decision.py:63-86 | of any two neighbouring observations one is model output, so no effect ever follows another |
| `RunHistory.ChoiceIsGrounded` | src/multi_bot_agentic/decision.py:134-207 | the chosen tool or bot is named by the latest observation and is in scope |
| `RunHistory.EngineStaysInBudget` | src/multi_bot_agentic/decision.py:49-61 | the engine acts only while a further step is left, and never ends a run with an error that a later check would raise |
| `RunHistory.LoopKeepsGrammar` | src/multi_bot_agentic/runner.py:208-289 | over every loop: observation grammar, scope of the last handoff, one observation per step, steps below the budget, and no allowlist or registry check of an action fails |
| `RunHistory.RunKeepsGrammar` | src/multi_bot_agentic/runner.py:369-376 | the same read off the log of a fresh run; the exhausted-budget exit is taken only when there are no steps at all |
| `RunHistory.LoopTakesTurns` | src/multi_bot_agentic/runner.py:229-284 | over the log of any invocation the model answers between any two tool requests or handoffs, and answers first when the invocation goes on from a tool result or a handoff |
| `RunHistory.RunTakesTurns` | src/multi_bot_agentic/runner.py:137-158 | the same for a fresh run, where the model answers before anything acts |
| `RunHistory.LoopProvenance` | src/multi_bot_agentic/runner.py:229-284 | four rows before every tool request and every handoff row stands the model output whose directive asked for it |
| `Checkpoints.SavedIsLoaded` | src/multi_bot_agentic/checkpoint.py:38-139 | a saved checkpoint is read back with every field, only empty observation ids being drawn anew |
| `Checkpoints.SavedIsLoadedUnchangedIff` | src/multi_bot_agentic/checkpoint.py:56-73 | it is read back unchanged exactly when every observation has an id |
| `Checkpoints.PayloadIsExact` | src/multi_bot_agentic/checkpoint.py:38-73 | the payload key by key |
| `Checkpoints.OlderPayloadLoads` | src/multi_bot_agentic/checkpoint.py:128-138 | a payload without an active bot loads, and then restores none |
| `Checkpoints.RunCheckpointsSurvive` | src/multi_bot_agentic/checkpoint.py:76-139 | every checkpoint that a run writes survives its JSON form |
| `CrashResume.LatestIgnoresIds` | src/multi_bot_agentic/decision.py:210-227 | the reverse scan does not depend on observation ids |
| `CrashResume.DecideIgnoresIds` | src/multi_bot_agentic/decision.py:19-207 | nor does the choice of the engine |
| `CrashResume.LoopIgnoresIds` | src/multi_bot_agentic/runner.py:208-289 | two loops over the same facts and the same service give the same verdict |
| `CrashResume.HandoffIsRestoredIff` | src/multi_bot_agentic/runner.py:193-199 | a handoff survives a resume exactly when its bot is registered under its own id with the same tools |
| `CrashResume.MisfiledBotIsLost` | src/multi_bot_agentic/runner.py:193-199 | a registry that files a bot under another id loses it on resume |
| `CrashResume.KeyedByIdIsCoherent` | src/multi_bot_agentic/runner.py:118-131 | a registry keyed by bot id, with the active bot in it, always restores |
| `CrashResume.LoopIsFaithful` | src/multi_bot_agentic/runner.py:208-289 | every checkpoint of a loop leads to its verdict |
| `CrashResume.ResumeIsFaithful` | src/multi_bot_agentic/runner.py:160-206 | resuming any faithful cut gives the verdict and leaves a faithful log |
| `CrashResume.CrashesAreInvisible` | src/multi_bot_agentic/runner.py:160-289 | a run cut at any row after its first checkpoint and resumed, any number of times, returns the state, answer and step count of the uninterrupted run |
| `CrashResume.TooEarlyIsRefused` | src/multi_bot_agentic/runner.py:184-187 | a cut is refused for want of a checkpoint exactly when it holds neither checkpoint nor outcome |
| `CrashResume.EveryHistoryIsSafe` | src/multi_bot_agentic/runner.py:244-331 | over every history of crashes and resumptions, with arbitrary surroundings each time, the grammar and the scope are kept |
| `ToolHistory.LoopSettles` | src/multi_bot_agentic/runner.py:229-284 | an uninterrupted loop follows each tool request with a checkpoint or the outcome, and the requests are the ones its steps decide on |
| `ToolHistory.LoopOnSchedule` | src/multi_bot_agentic/runner.py:229-284 | at every cut of a loop the requests made so far leave exactly the calls that its latest checkpoint would go on to make |
| `ToolHistory.CutTearsOne` | src/multi_bot_agentic/checkpoint.py:76-110 | a cut separates at most one tool request from the checkpoint after it |
| `ToolHistory.ToolsCompleteOnce` | src/multi_bot_agentic/runner.py:160-289 | over any history of kills and resumptions each tool call of the uninterrupted run is completed once and in order; a request is repeated only when a kill falls between it and its checkpoint, the repeated request is the same call, and each kill repeats at most one |
| `McpRouting.StdioMcpClient.Register` | src/multi_bot_agentic/mcp/client.py:566-573 | a request is registered for the generation that is current under the lock |
| `McpRouting.StdioMcpClient.WritableTo` | src/multi_bot_agentic/mcp/client.py:521-529 | the test before a write, which the transition system shares: the current process, and only for its own generation |
| `McpRouting.StdioMcpClient.Deliver` | src/multi_bot_agentic/mcp/client.py:480-487 | a response to a tracked request is stored, one to any other id dropped, and no other response is touched |
| `McpRouting.StdioMcpClient.LookFor` | src/multi_bot_agentic/mcp/client.py:586-600 | a waiter takes its response, or learns of replacement or breakage, in that order |
| `McpRouting.StdioMcpClient.Forget` | src/multi_bot_agentic/mcp/client.py:602-607 | nothing of a request is left |
| `McpRouting.StdioMcpClient.MarkBroken` | src/multi_bot_agentic/mcp/client.py:542-552 | a failure of a replaced process does not touch its successor |
| `McpRouting.StdioMcpClient.Respawn` | src/multi_bot_agentic/mcp/client.py:353-398 | a new process starts with a new generation and empty tables |
| `McpRouting.StdioMcpClient.Detach` | src/multi_bot_agentic/mcp/client.py:400-408 | the first part of a teardown, outside the lock: the process is gone while the channel still counts as open |
| `McpRouting.StdioMcpClient.MarkStopped` | src/multi_bot_agentic/mcp/client.py:422-425 | the last part of a teardown: the channel counts as closed |
| `McpRouting.RequestsStayHome` | src/multi_bot_agentic/mcp/client.py:504-529 | in every interleaving no process is sent a request that was registered for another, and the test before a write passes for nothing else |
| `McpRouting.StaysConsistent` | src/multi_bot_agentic/mcp/client.py:463-607 | every interleaving of the atomic steps keeps the tracking, accounting and matching invariants |
| `McpRouting.NothingIsLeftBehind` | src/multi_bot_agentic/mcp/client.py:632-671 | stored responses stay inside tracked requests, those belong to the current process, and a caller that has left leaves no entry; ids are not reused |
| `McpRouting.ResponsesAreRouted` | src/multi_bot_agentic/mcp/client.py:566-600 | with servers that answer only what they received (section 5 of JSON-RPC 2.0), a returned response carries the id of its request and comes from the process that was sent it |
| `McpRouting.ReplacedMeansUnanswered` | src/multi_bot_agentic/mcp/client.py:586-600 | a request whose process was replaced first is never answered, even by a dishonest server |
| `McpRouting.OutcomesAreFinal` | src/multi_bot_agentic/mcp/client.py:566-607 | what became of a request never changes |
| `McpRouting.PrintIsRouted` | src/multi_bot_agentic/mcp/client.py:463-487 | a line of the server reaches the one tracked request whose id it carries and changes nothing for any other |
| `McpRouting.AnswerArrives` | src/multi_bot_agentic/mcp/client.py:463-487 | a response to a request whose caller has not left is what that caller is given when it looks, whatever the others do in between, short of a restart |
| `McpRouting.AwaitIsExact` | src/multi_bot_agentic/mcp/client.py:580-600 | what a waiting caller is told: its stored response, else failure exactly when its process was replaced or the channel closed, else nothing in time |
| `McpRouting.EndIsNoticed` | src/multi_bot_agentic/mcp/client.py:427-461 | after the end of its process's stream a caller without a response is told so, and the end of a replaced process tells nobody |
| `McpRouting.ReplacementIsNoticed` | src/multi_bot_agentic/mcp/client.py:592-593 | a caller whose process was replaced is told that it failed |
| `McpRouting.OpenStaysOpen` | src/multi_bot_agentic/mcp/client.py:427-461 | a channel is closed by the end of a stream, a failed write or a teardown, and by nothing else |
| `McpRouting.TeardownIsNoticed` | src/multi_bot_agentic/mcp/client.py:400-425 | a teardown that is over has closed the channel, and a caller without a response is told so |
| `McpRouting.RestartIsClean` | src/multi_bot_agentic/mcp/client.py:353-398 | a restart forgets the requests of the old process and opens a channel to the process it starts |
| `McpRouting.CheckIsExact` | src/multi_bot_agentic/mcp/client.py:522-531 | the test before a write passes exactly when the process of the request is current and running and the lock was free |
| `McpRouting.WriteIsExact` | src/multi_bot_agentic/mcp/client.py:529-552 | a completed write was received and is waited for; any other closes the channel of its own process only |
| `McpRouting.TimeIsUp` | src/multi_bot_agentic/mcp/client.py:580-607 | a caller whose time is up may look again; if it leaves, it timed out and leaves nothing behind |
| `McpRouting.RequestIsSent` | src/multi_bot_agentic/mcp/client.py:566-578 | with a running process a registered request that passes the test and is written goes to that process and is waited for, whatever the others do meanwhile |
| `McpNegotiation.StdioMcpClient.Adopt` | src/multi_bot_agentic/mcp/client.py:726-744 | the loop over fields refines the specified adoption of the modern era |
| `McpNegotiation.StdioMcpClient.NegotiateEra` | src/multi_bot_agentic/mcp/client.py:673-724 | the probe loop refines its recursive specification: same lines written, same waits, same fields |
| `McpNegotiation.StdioMcpClient.Handshake` | src/multi_bot_agentic/mcp/client.py:746-794 | initialize offers the preferred legacy version; its answer or the late answer to the probe decides, as in the specification whose outcome McpOutcomes characterises |
| `McpNegotiation.StdioMcpClient.Call` | src/multi_bot_agentic/mcp/client.py:632-671 | a call refines the specified version switch |
| `McpNegotiation.ModernRound` | src/multi_bot_agentic/mcp/client.py:673-724 | without the fallback every probe names another modern version and no initialize is sent |
| `McpNegotiation.LegacyHandshake` | src/multi_bot_agentic/mcp/client.py:746-794 | the handshake sends one initialize and at most one more round of probes, and settles era, version and flag |
| `McpNegotiation.NegotiationAgrees` | src/multi_bot_agentic/mcp/client.py:673-794 | at most one initialize and two rounds of probes, none repeated; no initialize after an unsupported-version error; success only with a version both sides named and the legacy flag telling the era |
| `McpNegotiation.FreshProbesAreFew` | src/multi_bot_agentic/mcp/client.py:673-724 | a round has at most one probe for each modern version |
| `McpNegotiation.CallsTerminate` | src/multi_bot_agentic/mcp/client.py:632-671 | a call sends one request for each version at most, keeps the era, and leaves the version of its last request |
| `McpOutcomes.LaunchSucceedsIff` | src/multi_bot_agentic/mcp/client.py:673-794 | when a launch must succeed, as the replies heard: Legacy with v exactly when initialize is answered in full with a v of the legacy list, after a probe that looked legacy; Modern with v exactly when a course of probes, each the best of the refused offer, finds v, at once or after a late answer |
| `McpOutcomes.ProbingSucceedsIff` | src/multi_bot_agentic/mcp/client.py:673-744 | the probe loop succeeds exactly along such a course |
| `McpOutcomes.HandshakeSucceedsIff` | src/multi_bot_agentic/mcp/client.py:746-794 | the handshake succeeds exactly on a full answer with any listed legacy version, or by way of a late modern answer |
| `McpOutcomes.LaunchFailureFits` | src/multi_bot_agentic/mcp/client.py:673-794 | the kind of a failure is told by what happened last: channel, silence, versions that will not do, anything else |
| `McpOutcomes.CallSucceedsIff` | src/multi_bot_agentic/mcp/client.py:632-671 | a modern call succeeds exactly when the request, repeated with the best version left after each refusal, is served in full |
| `McpOutcomes.LegacyCallIsExact` | src/multi_bot_agentic/mcp/client.py:632-671 | a legacy call is one request without an envelope |
| `McpOutcomes.FailedCallFits` | src/multi_bot_agentic/mcp/client.py:632-671 | the kind of a failed call is told by what happened last, and only a timeout is cancelled |
| `McpListing.ListTools` | src/multi_bot_agentic/mcp/client.py:256-285 | a server without the tools capability is not asked; otherwise the page loop refines the recursive listing |
| `McpListing.ListingIsComplete` | src/multi_bot_agentic/mcp/client.py:256-285 | the names on all pages are listed in order, each as often as it occurs and none left out, exactly when there are at most 64 pages |
| `McpListing.BadPageFails` | src/multi_bot_agentic/mcp/client.py:270-276 | a page that cannot be had or is no list fails the listing with its own failure |
| `McpListing.EndlessListingFails` | src/multi_bot_agentic/mcp/client.py:52 | a server that never stops paging is given up on |
| `Base58.B58Encode` | src/multi_bot_agentic/tools/base58.py:125-146 | the loop computes the specified encoding |
| `Base58.B58Decode` | src/multi_bot_agentic/tools/base58.py:149-177 | the loops compute the specified decoding; a character outside the alphabet refuses the text |
| `Base58.DecodeOfEncode` | src/multi_bot_agentic/tools/base58.py:125-177 | decoding what was encoded gives every byte string back, leading zero bytes included |
| `Base58.EncodeOfDecode` | src/multi_bot_agentic/tools/base58.py:125-177 | encoding what was decoded gives every text over the alphabet back |
| `Base58.Base58IsBijective` | src/multi_bot_agentic/tools/base58.py:125-177 | encoding is one-to-one onto the texts over the alphabet, and decoding is its inverse |
| `Base58.AlphabetIsUnambiguous` | src/multi_bot_agentic/tools/base58.py:19-21 | the alphabet is the letters and digits without 0, O, I and l, in order |
| `Base58.DigitsArePlaces` | src/multi_bot_agentic/tools/base58.py:125-177 | digit strings are read as places: units last, each place worth the base times the next |
| `Base58.ToBytesIsNumeral` | src/multi_bot_agentic/tools/base58.py:176 | the rounded-up bit length gives just enough bytes: the result has no leading zero byte |
| `Cron.ParseField` | src/multi_bot_agentic/tools/cron_next.py:165-187 | the loop over the tokens refines the specified union, up to the first error |
| `Cron.ParseExpression` | src/multi_bot_agentic/tools/cron_next.py:139-163 | the loop over the five fields refines the specification |
| `Cron.ParseTokenIsExact` | src/multi_bot_agentic/tools/cron_next.py:188-228 | a token is accepted exactly when it spells a star, a number or a range within bounds, perhaps with a step, and means those numbers |
| `Cron.ParseFieldIsExact` | src/multi_bot_agentic/tools/cron_next.py:165-187 | a field is accepted exactly when it spells a list of such items, and means their union |
| `Cron.RefusalIsExact` | src/multi_bot_agentic/tools/cron_next.py:189-227 | how a token is refused: empty, for its step, else for its range or its value |
| `Cron.FirstProblem` | src/multi_bot_agentic/tools/cron_next.py:160-185 | a field is refused as its first bad token is |
| `Cron.ExpressionRefusalIsExact` | src/multi_bot_agentic/tools/cron_next.py:139-158 | an expression is refused for the number of its words, or as its first bad column is |
| `Cron.ParsedIsPlausible` | src/multi_bot_agentic/tools/cron_next.py:139-163 | accepted fields are non-empty and within bounds, and Sunday is 0 whether written 0 or 7 |
| `Numerals.DigitsArePlaces` | src/multi_bot_agentic/tools/cron_next.py:200-222 | numerals are read in decimal places |
| `Numerals.ShownIsRead` | src/multi_bot_agentic/mcp/bridge.py:200 | a shown number reads back and has no leading zero |
| `CronExpression.ExpressionIsExact` | src/multi_bot_agentic/tools/cron_next.py:139-163 | an expression is accepted exactly when its words spell five lists of well-formed items |
| `CronExpression.WrittenIsAccepted` | src/multi_bot_agentic/tools/cron_next.py:149-163 | five such lists with any white space between and around them are accepted as written |
| `CronExpression.FiresAsWritten` | src/multi_bot_agentic/tools/cron_next.py:139-286 | for every date, hour and minute: an accepted expression fires exactly when its items hold the minute, the hour and the month, and the day by the day rule, with the day of the week that the Gregorian calendar gives for the date |
| `CronExpression.EveryMinute` | src/multi_bot_agentic/tools/cron_next.py:230-262 | every minute of the search is the minute of such a date and time |
| `Calendar.OrdinalOfDateOf` | src/multi_bot_agentic/tools/cron_next.py:241-257 | the closed form of the Gregorian day number agrees with counting days one by one |
| `Calendar.DateOfOrdinal` | src/multi_bot_agentic/tools/cron_next.py:241-257 | and the calendar gives every valid date back |
| `Calendar.WeekdayOfDate` | src/multi_bot_agentic/tools/cron_next.py:276 | counting days of the week from a Monday agrees with Zeller's congruence for every date |
| `Calendar.NextDayOfWeek` | src/multi_bot_agentic/tools/cron_next.py:276 | the next date is the next day of the week |
| `CronSearch.DayRule` | src/multi_bot_agentic/tools/cron_next.py:261-286 | a day matches through a restricted day of month or a restricted day of week, or because neither is restricted |
| `CronSearch.NextFires` | src/multi_bot_agentic/tools/cron_next.py:230-259 | the minute loop returns the first matches of the horizon, and fails exactly when there are fewer than asked for |
| `CronSearch.MatchingIsExact` | src/multi_bot_agentic/tools/cron_next.py:248-255 | the matches of a window are increasing and are exactly the minutes in it that match |
| `CronSearch.FirstFires` | src/multi_bot_agentic/tools/cron_next.py:230-259 | a successful result holds exactly the matching minutes after the start up to its last one |
| `CronSearch.SearchSucceedsIff` | src/multi_bot_agentic/tools/cron_next.py:231-259 | the search succeeds exactly when that many fire times lie within 7320 days, the last minute included |
| `CronSearch.EnoughFires` | src/multi_bot_agentic/tools/cron_next.py:23 | every window has four matches for each time of day, and twenty when the date is in every year |
| `CronSearch.SatisfiableMeansSomeDay` | src/multi_bot_agentic/tools/cron_next.py:261-286 | some day of the calendar matches exactly when the fields name one; otherwise nothing ever fires |
| `CronSearch.UpToFourAreFound` | src/multi_bot_agentic/tools/cron_next.py:19-23 | up to four fires are found from every start exactly when some day matches |
| `CronSearch.HorizonIsEnoughExactly` | src/multi_bot_agentic/tools/cron_next.py:19-23 | a permitted count is found from every start exactly when the date is in every year, or the date is a leap day and the count is at most four for each time of day |
| `CronSearch.DefaultCountCanFail` | src/multi_bot_agentic/tools/cron_next.py:19 | for midnight on 29 February the default count of five is refused from the end of that day in 2096 |
| `PlanOrder.Kahn` | src/multi_bot_agentic/plan_step_dependency.py:95-104 | the loop over in-degrees, children and the sorted ready list computes the greedy order |
| `PlanOrder.BuildEdges` | src/multi_bot_agentic/plan_step_dependency.py:89-94 | the edge loops list and count exactly the edges, each charged to a given step |
| `PlanOrder.Resolve` | src/multi_bot_agentic/plan_step_dependency.py:49-107 | empty and repeated ids, missing dependencies and the shipped order or the cycle verdict |
| `PlanOrder.StepsAreReadIff` | src/multi_bot_agentic/plan_step_dependency.py:66-76 | ids are accepted exactly when non-empty and different after stripping |
| `PlanOrder.PlanRefusalIsExact` | src/multi_bot_agentic/plan_step_dependency.py:68-76 | a plan is refused for its first step with an empty id or the id of an earlier step |
| `PlanOrder.ResolveIsExact` | src/multi_bot_agentic/plan_step_dependency.py:62-107 | from the steps as written: unknown dependencies are listed in order; else the ids come back as declared, unless some step names the last one and the plan is called cyclic |
| `PlanOrder.IntendedOrderIsExact` | src/multi_bot_agentic/plan_step_dependency.py:87-107 | from the same steps, with the edges charged to their owners: the least order with dependencies first, found exactly when there is no cycle |
| `PlanOrder.ResolvedIsTopological` | src/multi_bot_agentic/plan_step_dependency.py:87-104 | a complete greedy order is a permutation with every dependency earlier |
| `PlanOrder.ResolvedIffAcyclic` | src/multi_bot_agentic/plan_step_dependency.py:105-107 | it is complete exactly when the graph has no cycle |
| `PlanOrder.ResolvedIsLeast` | src/multi_bot_agentic/plan_step_dependency.py:95-104 | no topological order is lexicographically smaller by declaration index |
| `PlanOrder.ChargedToLastResolves` | src/multi_bot_agentic/plan_step_dependency.py:91-94 | as shipped, a plan is refused when some step depends on the last one and is otherwise left as declared |
| `PlanOrder.DeclaredOrderIsRight` | src/multi_bot_agentic/plan_step_dependency.py:87-104 | the intended order is the declared one exactly when every dependency is declared earlier |
| `PlanOrder.ChargedToLastIsRightIff` | src/multi_bot_agentic/plan_step_dependency.py:91-94 | the shipped edges give the intended result exactly for plans declared in order, and for cyclic plans in which some step depends on the last |
| `PlanOrder.WrongOrderIsAccepted` | src/multi_bot_agentic/plan_step_dependency.py:91-94 | a three-step plan that is accepted in the wrong order |
| `Dependencies.StuckNeedsCycle` | src/multi_bot_agentic/plan_step_dependency.py:105-106 | a set in which every node waits for another of the set leads to a cycle |
| `ToolCallWave.Plan` | src/multi_bot_agentic/tool_call_wave.py:52-110 | normalisation, unknown dependencies and the layering loop, error for error |
| `ToolCallWave.Waves` | src/multi_bot_agentic/tool_call_wave.py:89-110 | the loop over remaining, resolved and waves refines the layers |
| `ToolCallWave.WaveIsDepth` | src/multi_bot_agentic/tool_call_wave.py:93-103 | a tool is in wave k exactly when its longest dependency chain has k + 1 tools |
| `ToolCallWave.WavesAreEarliest` | src/multi_bot_agentic/tool_call_wave.py:93-103 | no schedule that respects the dependencies can run a tool in an earlier wave |
| `ToolCallWave.WavesPartition` | src/multi_bot_agentic/tool_call_wave.py:89-110 | every tool is in exactly one wave, nothing else is in any, and no wave is empty |
| `ToolCallWave.LeftoverNeedsCycle` | src/multi_bot_agentic/tool_call_wave.py:94-99 | what is left when nothing is ready is exactly what lies on or depends on a cycle |
| `ToolCallWave.HardRefusesCycles` | src/multi_bot_agentic/tool_call_wave.py:95-96 | with known dependencies hard mode refuses exactly the cyclic graphs |
| `ToolCallWave.LastAdvisoryWave` | src/multi_bot_agentic/tool_call_wave.py:97-99 | the last advisory wave of a cyclic graph is exactly the tools that need a cycle |
| `ToolCallWave.NormalizedIsExact` | src/multi_bot_agentic/tool_call_wave.py:72-77 | the mapping holds the stripped ids and every dependency that the last entry of an id names |
| `ToolCallWave.PlanRefusalIsExact` | src/multi_bot_agentic/tool_call_wave.py:72-81 | a plan is refused exactly for a blank id, or in hard mode for the unknown dependencies, which are listed in order |
| `ToolCallWave.PlanIsExact` | src/multi_bot_agentic/tool_call_wave.py:69-110 | from the entries as written: a tool is in the wave of its longest chain of declared dependencies, hard mode refuses cycles, one last advisory wave holds the tools that need one, and the counts are right |
| `Utf8Cap.DecodeOfEncode` | src/multi_bot_agentic/mcp/bridge.py:197-198 | UTF-8 (section 3 of RFC 3629) decodes what it encodes |
| `Utf8Cap.EncodeOneIsUtf8` | src/multi_bot_agentic/mcp/bridge.py:186 | the bytes of a character are the ones of the table of RFC 3629, shortest form |
| `Utf8Cap.CutKeepsWhatFits` | src/multi_bot_agentic/mcp/bridge.py:199 | decoding any cut of an encoded text keeps exactly the whole characters in it |
| `Utf8Cap.FitIsLongest` | src/multi_bot_agentic/mcp/bridge.py:199 | that is the longest prefix that fits, at most three bytes short |
| `Utf8Cap.WithinBudget` | src/multi_bot_agentic/mcp/bridge.py:174-187 | within the budget the text comes back whole, unchanged exactly when it has no lone surrogate |
| `Utf8Cap.OverBudget` | src/multi_bot_agentic/mcp/bridge.py:174-201 | over the budget the longest fitting prefix is kept and marked with its size and the whole size, in decimal |
| `Utf8Cap.DroppedIsMarked` | src/multi_bot_agentic/mcp/bridge.py:190-201 | an earlier cut is marked even when the rest fits |
| `Calculator.FloorDivision` | src/multi_bot_agentic/tools/calculator.py:38-39 | quotient and remainder are the ones with the sign of the divisor, and the only ones |
| `Calculator.GuardedPowerFits` | src/multi_bot_agentic/tools/calculator.py:161-183 | a power that passes the guard fits, so the check after it never fires |
| `Calculator.RawIsBounded` | src/multi_bot_agentic/tools/calculator.py:132-150 | an operator on permitted values yields at most twice the permitted bits |
| `Calculator.EvaluationIsBounded` | src/multi_bot_agentic/tools/calculator.py:110-159 | every value returned has at most 4096 bits and every integer on the way at most 8192 |
| `Calculator.EvaluatesIff` | src/multi_bot_agentic/tools/calculator.py:110-159 | an expression evaluates to an integer exactly when arithmetic gives it that value and no power is refused and no result too large on the way |
| `Calculator.RefusalIsExact` | src/multi_bot_agentic/tools/calculator.py:134-153 | how an operator on two integers is refused: its name, the exponent, a zero divisor, the size |
| `Calculator.FirstFailureWins` | src/multi_bot_agentic/tools/calculator.py:134-159 | of several failures the operator's name comes first, then the left side, then the right |
| `Calculator.RefusalIsRightIff` | src/multi_bot_agentic/tools/calculator.py:161-183 | every power of a b-bit base with exponent n exceeds the limit exactly when n times (b - 1) reaches it |
| `Calculator.GuardIsExactIff` | src/multi_bot_agentic/tools/calculator.py:161-183 | the guard tells which powers fit for all bases of b bits exactly when n times b stays within the limit or n times (b - 1) reaches it |
| `Calculator.GuardIsNearlyTight` | src/multi_bot_agentic/tools/calculator.py:161-183 | a refused power has more bits than the limit less one for each factor |
| `Calculator.GuardCanRefuseWhatFits` | src/multi_bot_agentic/tools/calculator.py:161-183 | a power that fits and is refused all the same |
| `RateLimit.RateLimitedToolRunner.Execute` | src/multi_bot_agentic/tool_runner.py:90-124 | admitted exactly when the window ending now holds fewer than the limit; the refusal carries the wait; other tools are untouched |
| `RateLimit.RateLimitedToolRunner.Remaining` | src/multi_bot_agentic/tool_runner.py:126-141 | what remains and the load of the window add up to the limit |
| `RateLimit.LimitIsKept` | src/multi_bot_agentic/tool_runner.py:108-123 | over every history of calls no closed window of the configured length holds more than the limit |
| `RateLimit.RefusedOnlyWhenFull` | src/multi_bot_agentic/tool_runner.py:112-113 | a call is refused exactly when the window ending now is full |
| `RateLimit.RetryAfterIsTight` | src/multi_bot_agentic/tool_runner.py:113 | a refused call is refused until more than the advised wait has passed, and then admitted |
| `Fairness.BotTurnFairnessScheduler.Record` | src/multi_bot_agentic/bot_turn_fairness.py:101-132 | the refusals in their order, or one more turn for this bot in this session only |
| `Fairness.BotTurnFairnessScheduler.Recommend` | src/multi_bot_agentic/bot_turn_fairness.py:81-99 | the true counts and skew of this session, a bot that precedes every eligible one, and permission; or the refusal |
| `Fairness.BotTurnFairnessScheduler.Reset` | src/multi_bot_agentic/bot_turn_fairness.py:134-145 | the session is forgotten and all others stay |
| `Fairness.RecommendedIsFirst` | src/multi_bot_agentic/bot_turn_fairness.py:158-159 | the recommended bot comes first by turns taken and then by name |
| `Fairness.RecommendedIsAdmitted` | src/multi_bot_agentic/bot_turn_fairness.py:147-163 | it is always admitted, so a snapshot never denies everybody |
| `Fairness.HardModeBoundsSkew` | src/multi_bot_agentic/bot_turn_fairness.py:147-152 | over every admitted run the skew stays within one of the configured maximum |
| `Fairness.ObjectionIsExact` | src/multi_bot_agentic/bot_turn_fairness.py:119-129 | what a turn is refused for, told by the ids and the counts, in this order |
| `Fairness.IdsAreExact` | src/multi_bot_agentic/bot_turn_fairness.py:121-123 | ids are kept in order and stripped, unless one is blank |
| `Fairness.TurnKeepsMaxSkewIff` | src/multi_bot_agentic/bot_turn_fairness.py:147-152 | one admitted turn keeps the configured maximum exactly when the bot was below it or is alone |
| `Fairness.MaxSkewIsKeptIff` | src/multi_bot_agentic/bot_turn_fairness.py:51-53 | all runs keep the configured maximum exactly when there is only one eligible bot |
| `Fairness.RoundRobin` | src/multi_bot_agentic/bot_turn_fairness.py:81-99 | after n followed recommendations each of k bots has had n / k turns, rounded down or up |
| `InFlight.AdaptiveConcurrencyLimiter.TakeOrNot` | src/multi_bot_agentic/concurrency_limiter.py:105-126 | the locked test takes a slot exactly when the limit is not reached |
| `InFlight.AdaptiveConcurrencyLimiter.Release` | src/multi_bot_agentic/concurrency_limiter.py:128-153 | one slot back, the streak and the limit moved as specified; nothing in flight is an error without effect |
| `InFlight.LimiterIsSafe` | src/multi_bot_agentic/concurrency_limiter.py:105-153 | in every interleaving slots are conserved and bounded, the limit stays in its range, and whoever sleeps without a notification does so because the limit is reached |
| `InFlight.SleepersAreOwedARelease` | src/multi_bot_agentic/concurrency_limiter.py:113-116 | a sleeper is owed a release, and that release notifies it |
| `InFlight.ReleaseMakesRoomUnlessItShrinks` | src/multi_bot_agentic/concurrency_limiter.py:141-153 | after a release the limit is still reached exactly when a failure took the freed slot away |
| `InFlight.SuccessesRestoreLimit` | src/multi_bot_agentic/concurrency_limiter.py:144-147 | successes bring the limit back to its maximum one at a time and end the streak |
| `InFlight.FailuresShrinkLimit` | src/multi_bot_agentic/concurrency_limiter.py:148-152 | failures bring it down to its minimum one at a time and are counted |
| `InFlight.LookingIsExact` | src/multi_bot_agentic/concurrency_limiter.py:105-126 | who looks takes a slot exactly when one is free, else waits on or gives up when its time is over |
| `InFlight.WaiterGetsTheSlot` | src/multi_bot_agentic/concurrency_limiter.py:105-153 | a waiter woken by a release has a slot once it looks while one is free, whatever the others do in between |
| `ToolNames.NameIsUniqueIff` | src/multi_bot_agentic/mcp/bridge.py:47-61 | a registry name reads back as its server and tool exactly when the server holds no double underscore and does not end in one underscore |
| `ToolNames.NamesAreExact` | src/multi_bot_agentic/mcp/config.py:29 | server names are letters and digits with single separators between them, at most 64 characters; both patterns let one line feed through at the end |
| `ToolNames.NamesAreCollisionFree` | src/multi_bot_agentic/mcp/config.py:29 | configured server names make names of different tools different |
| `ToolNames.NamesCanCollide` | src/multi_bot_agentic/mcp/bridge.py:47-61 | without that grammar two tools can share a name |
| `ToolNames.DirectiveNamesToolIff` | src/multi_bot_agentic/mcp/bridge.py:36 | a directive can name a registered tool exactly when its remote name does not end in the line feed that the pattern lets through |
| `ToolNames.McpToolset.Register` | src/multi_bot_agentic/mcp/bridge.py:494-522 | the registration loop refines the specified pass |
| `ToolNames.RegistrationIsComplete` | src/multi_bot_agentic/mcp/bridge.py:494-522 | every valid exposed tool is registered under its own name and nothing is displaced |
| `ToolNames.RegistrationIsAccounted` | src/multi_bot_agentic/mcp/bridge.py:494-522 | nothing else is added and every listed tool is accounted for once |
| `ToolNames.StatusIsExact` | src/multi_bot_agentic/mcp/bridge.py:494-522 | every listed tool is reported once, in order, under what became of it: skipped for its name or because the name was taken, hidden, or exposed |
| `ToolNames.RegistryIsReadable` | src/multi_bot_agentic/mcp/bridge.py:47-61 | every registered name determines its server and tool |
| `ReplayDiff.Diff` | src/multi_bot_agentic/run_replay_diff.py:101-154 | on normalised events the three loops report exactly the specified entries and indices |
| `ReplayDiff.DiffRuns` | src/multi_bot_agentic/run_replay_diff.py:77-105 | raw runs: the refusals, left before right and first event first, or the drift of the normalised runs |
| `ReplayDiff.RunsAreEqualIff` | src/multi_bot_agentic/run_replay_diff.py:163-176 | two raw runs are reported equal exactly when, event for event, type and state read the same and the payloads agree at every place that no timestamp key leads to |
| `ReplayDiff.EntriesRebuildRight` | src/multi_bot_agentic/run_replay_diff.py:101-154 | the left run and the entries determine the right run |
| `ReplayDiff.SwappingMirrors` | src/multi_bot_agentic/run_replay_diff.py:101-154 | swapping the runs mirrors the entries, and the mirrored entries lead back |
| `ReplayDiff.EqualIffNoDrift` | src/multi_bot_agentic/run_replay_diff.py:146-154 | normalised runs have no drift exactly when they are equal |
| `ReplayDiff.DriftIsExact` | src/multi_bot_agentic/run_replay_diff.py:101-154 | reported are exactly the positions where both runs have different events and those where only one has any |
| `ReplayDiff.RunIsAcceptedIff` | src/multi_bot_agentic/run_replay_diff.py:157-190 | a run is accepted exactly when each item is a mapping whose payload is missing, None or a mapping |
| `ReplayDiff.RunRefusalIsExact` | src/multi_bot_agentic/run_replay_diff.py:163-190 | a run is refused for its first item that is no event or has no proper payload |
| `ReplayDiff.StrippedAtEveryDepth` | src/multi_bot_agentic/run_replay_diff.py:193-205 | no timestamp key is left at any depth, and exactly the values without one are left alone |
| `ReplayDiff.StripIsIdempotent` | src/multi_bot_agentic/run_replay_diff.py:193-205 | stripping twice is stripping once |
| `ReplayDiff.StrippedByPlace` | src/multi_bot_agentic/run_replay_diff.py:193-205 | stripping leaves everything in its place except what lies under a timestamp key |
| `ReplayDiff.StrippedEqualIff` | src/multi_bot_agentic/run_replay_diff.py:193-205 | two values are equal once stripped exactly when they agree at every such place |
| `WriteLease.SharedBlackboardWriteLease.Acquire` | src/multi_bot_agentic/blackboard_write_lease.py:67-132 | granted unless another bot holds a running lease; status and table in full |
| `WriteLease.SharedBlackboardWriteLease.Release` | src/multi_bot_agentic/blackboard_write_lease.py:134-145 | only the holder gives up the lease, even a lapsed one |
| `WriteLease.StaysWithHolder` | src/multi_bot_agentic/blackboard_write_lease.py:93-145 | until the holder gives it up or a full lease has passed, the key stays with its holder, refreshes included |
| `WriteLease.AcquisitionsAreSeparated` | src/multi_bot_agentic/blackboard_write_lease.py:93-145 | acquisitions of one key by two bots are separated by a release of the first or by a full lease |
| `WriteLease.GrantedIffWins` | src/multi_bot_agentic/blackboard_write_lease.py:93-145 | from the calls alone: an acquisition is granted exactly when no other bot won the key less than a lease ago without having released it since |
| `WriteLease.CallsStayApart` | src/multi_bot_agentic/blackboard_write_lease.py:134-145 | a release ends the lease of its caller and no other, and no call touches another key |

## Left out

- LLM adapters, HTTP, the CLI, configuration files, the demo and the example servers: input and output only.
- The single-threshold advisors, guards and gates, and the single-map stores: one comparison or one update each.
- SQLite, JSON text, subprocesses, pipes, signals and the wall clock: an append-only row list, JSON values, atomic process
  steps and a clock that callers pass in.
- Constructor argument checks of the limiters, the lease table, the calculator's length limit and the resolution of
  `count` and `from_iso`: the argument domains are stated as preconditions of the constructors and searches.
- Runner.AgentRunner.Run: assumes a fresh run id and a fresh runner; re-running a finished id is not modelled.
- Runner.AgentRunner.RunLoop: an exception that the loop does not catch is a crash at that row, not a separate exit.
- ToolHistory.ToolsCompleteOnce: whether a tool whose request was cut off had already taken effect is not in the log.
- CrashResume.CrashesAreInvisible: the provider and the tools are functions that ignore observation ids, and cancellation
  is absent; without that no two runs need agree. EveryHistoryIsSafe says what holds without it.
- Checkpoints.SavedIsLoaded: values of other JSON types than the ones written are refused, where the code would convert some.
- McpRouting.ResponsesAreRouted: nothing is said about the bytes on a channel after a partial line.
- McpRouting.StdioMcpClient.WritableTo: the write lock and the operating-system pipe are the nondeterministic results of
  the write step.
- McpNegotiation.NegotiationAgrees: timeouts are replies that never come; a probe id that a failing launch still tracks is
  cleared only by the next spawn, and is not claimed to be cleared earlier.
- McpNegotiation.CallsTerminate: a version switch made by another thread during the call is not modelled.
- Cron.ParseTokenIsExact: digits are the ASCII ones; the code also lets other Unicode digits through.
- CronSearch.NextFires: the calendar has no last year, where `datetime` stops at 9999.
- Calculator.EvaluationIsBounded: integers only; a true division or a negative exponent leaves the fragment and nothing
  more is said about the float.
- RateLimit.RateLimitedToolRunner.Execute: the advised wait is exact, before it is rounded for display.
- InFlight.AdaptiveConcurrencyLimiter.TakeOrNot: the waiting itself is in the transition system, not in the class.
- ToolNames.McpToolset.Register: the glob patterns of the allow and deny lists are one predicate on names.
- ReplayDiff.DiffRuns: keys are strings, case folding and `str` are arbitrary functions, and objects that only look like
  event records are not modelled.
- The floating-point clocks of the limiter and the lease table are real numbers.
- `coerce_arguments` and the rendering of MCP content blocks.
