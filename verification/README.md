# Instrumented workflow graph and its run bookkeeping, in Dafny

A Dafny model of the logic of the gen-ai-examples web demo. It covers a
graph builder whose nodes report their runs as events, the CV-writing LLM
workflow, and the server and browser code that carries run events and
results to a page.

- **EventGraph** (`eventEnhancedFlow.ts`) is the graph builder:
  - node registration, which wraps every node function;
  - conditional-edge registration, with its argument checks;
  - the two exports, the graph descriptor and the Mermaid text.
- **NodeWrapper** (`eventEnhancedFlow.ts`) is the node wrapper. It turns one
  node call into a `node_start`/`node_end` event pair.
- **Runner** (`workflowRunner.ts`) is the run coordinator. It has a one-shot
  `isRunning` guard, and it relays the node events of the graph it listens
  to, and the final result, as messages over the client's socket.
- The run-level members (`NodeWrapper.RunEvents`, the relay, the page's
  reading of relayed events) take a `Version`: `AsWritten` is the source as
  written, `Corrected` has the corrections of "## Findings" applied. Their
  lemmas hold for both.
- **Sessions** (`sessionManager.ts`) is the session registry: id to record,
  socket to latest id, and the age-based sweep.
- **CvWorkflow** (`projectExperienceForCV.ts`) is the CV workflow:
  - its nodes, the review-loop routing and the bound on the loop;
  - the draft gate (`validateProjectDraft`, `assessInputRelevance`);
  - `runWorkflow`.
- **DiagramView** (`public/js/graph-visualizer.js`) is the node-status state
  machine of the Mermaid visualizer, and the diagram text it draws.
- **GraphView** and **Layering** (`public/js/graph.js`, also
  `public/app-single-file.js`) cover the D3 visualizer's state map, its
  labels, and the breadth-first layer assignment `calculateLayers`.
- **ClientApp** (`public/app-single-file.js`) is the single-file page: what
  Generate, Clear and each server message do to the page state.
- **SocketClient** (`public/js/websocket.js`) is the browser's handler
  registry and message dispatcher.
- **Config** (`config.ts`) is the configuration built from the process
  environment.
- **UserCli** (`userCli.ts`) is the answer post-processing and the multiline
  collection of the command-line prompt, and the text `print` writes.

Shared modules:

- `Wrappers` holds `Option` and `Result`.
- `Text` holds the JavaScript string operations used: `trim`, `split`,
  `join`, `toLowerCase` on ASCII, `includes`, and integer to text.
- `OrderedMap` is an insertion-ordered JavaScript `Map`, as an association
  list.
- `Values` holds JSON values, run states and thrown values.
- `Protocol` holds the server-to-browser message.

Time, identifiers, regular-expression matches and the outcome of library
calls are all parameters. A thrown error becomes a `Failure` that carries
the message.

## Model

| member | source | states |
|---|---|---|
| EventGraph.AddNode | src/core/workflows/eventEnhancedFlow.ts:59-67 | the single-node form appends one node whose function is the wrapper built for that id, with the metadata passed through; the edges, conditional edges and the compiled flag are untouched |
| EventGraph.AddNodes | src/core/workflows/eventEnhancedFlow.ts:43-57 | the map form appends every entry in order, each holding the wrapper of its own id; nothing else changes |
| EventGraph.BuildKeepsInstrumented | src/core/workflows/eventEnhancedFlow.ts:41-68 | any chain of registrations that succeeds leaves every declared node holding the wrapper built for its own id |
| EventGraph.FirstStray | src/core/workflows/eventEnhancedFlow.ts:89-97 | finds the first `pathMap` entry whose target is not a declared outcome, and finds none exactly when every target is an outcome |
| EventGraph.AddConditionalEdges | src/core/workflows/eventEnhancedFlow.ts:77-105 | fails with the missing-outcomes message when `outcomes` is absent; fails when a `pathMap` target is not an outcome; succeeds exactly otherwise (empty outcomes included); on success records the outcomes under the source and leaves other sources, nodes, edges and the compiled flag unchanged |
| EventGraph.ConditionalLastWriteWins | src/core/workflows/eventEnhancedFlow.ts:98 | a second registration for the same source replaces the first outcome list |
| EventGraph.StrayPathMapRejected | src/core/workflows/eventEnhancedFlow.ts:89-97 | a `pathMap` target outside the outcomes is rejected with the message naming the key, the value and the outcomes joined by `, ` |
| EventGraph.ToGraphDto | src/core/workflows/eventEnhancedFlow.ts:143-175 | fails exactly when not compiled; otherwise the nodes are `__start__`, `__end__` and the declared ids in order, the plain edges come first in declaration order as non-conditional, and after them come exactly the conditional edges, one per registered outcome in registration order |
| EventGraph.ConditionalEdges | src/core/workflows/eventEnhancedFlow.ts:164-172 | one conditional edge per registered (source, outcome) pair |
| EventGraph.ConditionalEdgeListed | src/core/workflows/eventEnhancedFlow.ts:164-172 | a conditional edge is listed exactly when its target is among the outcomes registered for its source |
| EventGraph.GenerateMermaidGraph | src/core/workflows/eventEnhancedFlow.ts:117-141 | the fixed notice for an uncompiled graph; otherwise exactly the text read off the graph's own descriptor |
| EventGraph.MermaidLinesMatchDto | src/core/workflows/eventEnhancedFlow.ts:117-175 | for a compiled graph, the lines the Mermaid export appends are the descriptor's lines, entry for entry |
| EventGraph.MermaidAgreesWithDto | src/core/workflows/eventEnhancedFlow.ts:117-175 | the two exports agree: both refuse an uncompiled graph, and a compiled graph's Mermaid text is exactly the lines the descriptor determines, entry for entry and in the same order |
| EventGraph.ConditionalLinesMatch | src/core/workflows/eventEnhancedFlow.ts:134-138 | the Mermaid conditional lines are the lines of the descriptor's conditional edges |
| EventGraph.DemoBuild | src/demo-2.ts:11-36 | the demo's registration chain succeeds and yields the four wrapped nodes, four plain edges, one branch and a compiled graph |
| EventGraph.DemoDescriptor | src/demo-2.ts:11-36 | the demo graph's descriptor: six nodes, the four plain edges, then the two conditional edges out of `second` |
| EventGraph.BuildChain | src/core/workflows/eventEnhancedFlow.ts:41-105 | a chain of registrations that each succeed ends at the last graph |
| NodeWrapper.Wrap | src/core/workflows/eventEnhancedFlow.ts:177-178 | the wrapper remembers its node id and the function it wraps |
| NodeWrapper.SessionOf | src/core/workflows/eventEnhancedFlow.ts:183 | the session id is present exactly when the config and its `configurable` part are |
| NodeWrapper.InvokeAsWritten | src/core/workflows/eventEnhancedFlow.ts:182-231 | one call emits a start and then an end event for the same node and session; the end holds the elapsed time; the caller gets the node's result or its error unchanged; the start and end carry the start and end times; a successful end says `success` and a failed end has no status |
| NodeWrapper.AsWrittenFailureIsIllTyped | src/core/workflows/eventEnhancedFlow.ts:17-20 | the failure end event as written does not have the shape the end-event type declares |
| NodeWrapper.Invoke | src/core/workflows/eventEnhancedFlow.ts:177-232 | the same pair of events, now always well typed: status `success` exactly when the node returned, the after-state is the input merged with the update, and a failure carries the error message |
| NodeWrapper.InvokeBy | src/core/workflows/eventEnhancedFlow.ts:177-232 | either version of the wrapper publishes a start then an end for the node under the run's session, the end saying `success` exactly when the node returned; it is the wrapper as written or the corrected one |
| NodeWrapper.RunEvents | src/core/workflows/eventEnhancedFlow.ts:177-232 | a run of n wrapped calls publishes 2n events, as written or corrected |
| NodeWrapper.RunEventsPaired | src/core/workflows/eventEnhancedFlow.ts:186-226 | for the wrapper as written and the corrected one alike, call i publishes events 2i and 2i+1: a start then an end, with that call's node id and the run's session id |
| NodeWrapper.SuccessEndsCountReturns | src/core/workflows/eventEnhancedFlow.ts:202-210 | for the wrapper as written and the corrected one alike, the number of successful end events equals the number of calls that returned |
| Values.Merge | src/core/workflows/eventEnhancedFlow.ts:209 | `{...state, ...update}`: every key of either side, the update winning |
| Runner.Send | src/web/workflowRunner.ts:75-79 | a message goes out exactly when the socket is open and is dropped otherwise |
| Runner.FinalMessage | src/web/workflowRunner.ts:59-69 | a resolved run sends `result` with its value; a thrown run sends `error` with the error's message |
| Runner.StartPayload | src/web/workflowRunner.ts:27-36 | the relayed start carries exactly the node id, the `node_start` type and the event's timestamp |
| Runner.EndPayloadAsWritten | src/web/workflowRunner.ts:38-50 | the relayed end payload as written carries the node id, the `node_end` type, and the event's timestamp and duration; it has a status exactly when the event has one, and never an `error` field |
| Runner.RelayedErrorIsLost | src/web/workflowRunner.ts:47 | the failure end the wrapper writes as written, relayed by the end listener as written, never carries the node's error message |
| Runner.EndPayload | src/web/workflowRunner.ts:38-50 | the corrected end payload: node id, type, timestamp and duration always; a status exactly when the event has one; the error text exactly when the node failed; every other field as written |
| Runner.RelayedErrorCarriesMessage | src/web/workflowRunner.ts:38-50 | a failed node's relayed end names the node and carries its error message |
| Runner.RelayMessage | src/web/workflowRunner.ts:27-50 | a start is relayed as `node_start` and an end as `node_end`, with an object payload limited to the relayed fields; as written an end never carries `error`, corrected it carries one exactly for a failed node |
| Runner.Relay | src/web/workflowRunner.ts:27-50 | each registered listener of the event's kind sends one message when the socket is open; nothing is sent to a closed socket |
| Runner.Begin | src/web/workflowRunner.ts:14-53 | a call while running only sends the already-running error; otherwise the runner is marked running and one listener of each kind is added |
| Runner.Finish | src/web/workflowRunner.ts:56-72 | settling always clears `isRunning`, keeps the listeners and sends the final message |
| Runner.ReentrantRunRejected | src/web/workflowRunner.ts:15-21 | a re-entrant call leaves the runner as it was and sends only `Workflow is already running` |
| Runner.Run | src/web/workflowRunner.ts:14-73 | a call while running changes nothing and sends only the already-running error; an accepted call leaves the runner idle with one more listener of each kind and, on an open socket, sends the result or the error last |
| Runner.RunSettles | src/web/workflowRunner.ts:23-72 | after any accepted run, whether it succeeded or threw, the runner is idle again with one more listener of each kind, and the final message is the last one sent |
| Runner.ClosedSocketGetsNothing | src/web/workflowRunner.ts:75-79 | nothing reaches a socket that is not open |
| Runner.RelayAllOnce | src/web/workflowRunner.ts:27-50 | with one listener of each kind, every event is relayed exactly once and in order |
| Runner.FirstRun | src/web/workflowRunner.ts:14-72 | a fresh runner's run sends every event in order, then the final message |
| Runner.RelayIgnoresSession | src/web/workflowRunner.ts:27-50 | the relay does not look at the session id |
| Runner.SecondRunRelaysTwice | src/web/workflowRunner.ts:52-53 | listeners are never removed, so a second run relays every event twice |
| Protocol.ErrorMessage | src/web/workflowRunner.ts:17-20 | an error message is an `error` message whose payload holds just the text |
| Sessions.InitValid | src/web/sessionManager.ts:14-15 | a fresh registry is consistent and empty |
| Sessions.CreateSession | src/web/sessionManager.ts:19-35 | the id maps to a new active record; the socket points at the id; every other entry is unchanged; a fresh id adds one record |
| Sessions.CreatePreservesValid | src/web/sessionManager.ts:19-35 | with a fresh id the registry stays consistent and the count grows by one |
| Sessions.GetSession | src/web/sessionManager.ts:40-42 | a record is found exactly for a stored id |
| Sessions.GetSessionIdByWebSocket | src/web/sessionManager.ts:47-49 | an id is found exactly for a mapped socket |
| Sessions.RemoveSession | src/web/sessionManager.ts:54-61 | an unknown id changes nothing; otherwise the record goes, and so does the socket entry of its socket, whatever it names now; nothing else changes |
| Sessions.RemovePreservesValid | src/web/sessionManager.ts:54-61 | removal keeps the registry consistent and lowers the count by one for a stored id |
| Sessions.RemoveOlderDropsNewerLink | src/web/sessionManager.ts:57-58 | removing an older session of a socket that has since opened a newer one also drops the socket's link to the newer one |
| Sessions.RemoveSessionByWebSocket | src/web/sessionManager.ts:66-71 | an unmapped socket, or one mapped to the falsy empty id, changes nothing; otherwise only the session the socket points at is removed, and in a consistent registry the socket's own entry goes while every other socket keeps its entry |
| Sessions.RemoveByWebSocketPreservesValid | src/web/sessionManager.ts:66-71 | removal by socket keeps the registry consistent |
| Sessions.CloseKeepsOlderSession | src/web/sessionManager.ts:66-71 | an older session of the same socket survives removal by socket |
| Sessions.DeactivateSession | src/web/sessionManager.ts:76-82 | an unknown id changes nothing; otherwise only that record's `isActive` becomes false and the keys of both maps are unchanged |
| Sessions.DeactivatePreservesValid | src/web/sessionManager.ts:76-82 | deactivation keeps the registry consistent and the count unchanged |
| Sessions.Records | src/web/sessionManager.ts:87-89 | the records in insertion order |
| Sessions.GetActiveSessions | src/web/sessionManager.ts:87-89 | exactly the stored records that are active |
| Sessions.GetSessionCount | src/web/sessionManager.ts:94-96 | the number of distinct stored ids |
| Sessions.Kept | src/web/sessionManager.ts:101-119 | a sweep keeps at most the records it was given |
| Sessions.KeptMembers | src/web/sessionManager.ts:108 | a sweep keeps exactly the records that are not both inactive and strictly older than the limit |
| Sessions.SweepOne | src/web/sessionManager.ts:106-117 | one step of the sweep removes the visited record exactly when it is stale, and keeps the loop invariant |
| Sessions.CleanupOldSessionsDefault | src/web/sessionManager.ts:101-119 | without an argument the sweep uses 60 minutes: it keeps exactly the records not stale at that limit and returns how many it removed |
| Sessions.CleanupOldSessions | src/web/sessionManager.ts:101-119 | the sweep leaves a consistent registry holding exactly the records that are not stale, returns how many it removed, and drops exactly the socket entries of the removed records |
| Sessions.ActiveSurvivesSweep | src/web/sessionManager.ts:108 | an active session is never swept |
| Sessions.ServeOneRun | src/server.ts:80-82 | creating a session, then deactivating it, leaves it stored and inactive, with its socket pointing at it |
| CvWorkflow.Or | src/core/workflows/projectExperienceForCV.ts:37 | the logical or of two optional strings: `a` when it is non-empty, `b` otherwise |
| CvWorkflow.GenerateNodeAsWritten | src/core/workflows/projectExperienceForCV.ts:36-47 | the `generate` node as written fails with `Input is missing` when the enhanced prompt and the draft are both empty, throws the `TypeError` when there is no enhancer output, and otherwise calls the author with the enhanced prompt whatever fallback it checked |
| CvWorkflow.GenerateNode | src/core/workflows/projectExperienceForCV.ts:36-47 | the corrected `generate` node fails with `Input is missing` exactly when the enhanced prompt and the draft are both empty, and otherwise calls the author with the value it checked |
| CvWorkflow.GenerateAsWrittenDropsDraft | src/core/workflows/projectExperienceForCV.ts:37-45 | as written, with no enhancer output, a non-empty draft still makes the node fail |
| CvWorkflow.GenerateAsWrittenPassesEmptyPrompt | src/core/workflows/projectExperienceForCV.ts:37-45 | as written, an empty enhanced prompt is passed to the author although the draft is non-empty |
| CvWorkflow.GenerateAgreesOnUsablePrompt | src/core/workflows/projectExperienceForCV.ts:36-47 | with a non-empty enhanced prompt both versions behave the same |
| CvWorkflow.ReviewNode | src/core/workflows/projectExperienceForCV.ts:48-61 | reviews the refined description when non-empty, otherwise the author's description, and throws when neither is non-empty |
| CvWorkflow.EditNode | src/core/workflows/projectExperienceForCV.ts:62-78 | throws for a missing description, then for a missing review; otherwise calls the editor with the description, the review and the improvements |
| CvWorkflow.ScoreNode | src/core/workflows/projectExperienceForCV.ts:79-89 | throws without a refined description; otherwise scores it and returns the cycle count plus one, a missing count taken as 0 |
| CvWorkflow.RouteAfterScore | src/core/workflows/projectExperienceForCV.ts:97-106 | loops back to `review` exactly when the score is below 4.0 and fewer than 2 cycles are done, a missing value taken as 0 |
| CvWorkflow.RouteEndsOnGoodScoreOrCap | src/core/workflows/projectExperienceForCV.ts:11-12 | a score of at least 4.0 ends the run; so do 2 completed cycles; with neither value set the run loops |
| CvWorkflow.TraceLength | src/core/workflows/projectExperienceForCV.ts:91-106 | a run executes five or eight nodes and always starts with `enhancePrompt, generate, review, edit, score` |
| CvWorkflow.LowScoresLoopTwice | src/core/workflows/projectExperienceForCV.ts:91-106 | a critic that never reaches 4.0 makes `review, edit, score` run exactly twice |
| CvWorkflow.GoodFirstScoreEndsRun | src/core/workflows/projectExperienceForCV.ts:97-106 | a first score of at least 4.0 ends the run after one cycle |
| CvWorkflow.CountTrue | src/core/workflows/projectExperienceForCV.ts:134-136 | the number of negative patterns that matched, that is the number of hits in the list, at most the number of patterns |
| CvWorkflow.AssessInputRelevance | src/core/workflows/projectExperienceForCV.ts:110-139 | the relevance is never negative, is at least the positive matches less ten per negative pattern hit, and equals that when positive |
| CvWorkflow.RelevanceNegativeHits | src/core/workflows/projectExperienceForCV.ts:121-138 | with no negative hit the relevance is the number of positive matches; ten points per hit cancel the matches |
| CvWorkflow.AnyIncluded | src/core/workflows/projectExperienceForCV.ts:163-165 | true exactly when some keyword occurs in the text |
| CvWorkflow.HasProjectKeywords | src/core/workflows/projectExperienceForCV.ts:148-165 | true exactly when some project keyword occurs in the lower-cased draft |
| CvWorkflow.KeywordsIgnoreCase | src/core/workflows/projectExperienceForCV.ts:164 | the keyword test gives the same answer for a draft and its lower-cased form |
| CvWorkflow.ValidateProjectDraft | src/core/workflows/projectExperienceForCV.ts:141-183 | false outside 20 to 2000 UTF-16 units; within them, true exactly when a keyword occurs, no suspicious pattern matches and the relevance exceeds 4 |
| CvWorkflow.ValidDraftHasMatches | src/core/workflows/projectExperienceForCV.ts:141-183 | an accepted draft has at least five positive matches |
| CvWorkflow.RunWorkflow | src/core/workflows/projectExperienceForCV.ts:185-197 | an invalid draft throws the fixed message; otherwise a crash of the graph is swallowed into `undefined` and a completed run yields its final state |
| CvWorkflow.ShortDraftRejected | src/core/workflows/projectExperienceForCV.ts:143-145 | a draft under ten characters never reaches the graph |
| DiagramView.Label | public/js/graph-visualizer.js:53-58 | a completed node with a duration is labelled `id<br/>Nms`; any other node by its id |
| DiagramView.NodeDiagramLines | public/js/graph-visualizer.js:51-68 | one line per descriptor node, in descriptor order; the drawing throws exactly when some node has no state |
| DiagramView.NodeDiagramLine | public/js/graph-visualizer.js:51-68 | the sentinels are drawn as stadiums, every other node as a box, each with its label |
| DiagramView.EdgeDiagramLine | public/js/graph-visualizer.js:71-77 | a conditional edge is drawn dotted with the label `conditional`, a plain edge as a solid arrow |
| DiagramView.EdgeDiagramLines | public/js/graph-visualizer.js:71-77 | one line per descriptor edge, in order, dotted for conditional edges |
| DiagramView.ClassLines | public/js/graph-visualizer.js:90-92 | one `class` line per node state, in the map's order |
| DiagramView.GenerateDiagram | public/js/graph-visualizer.js:43-95 | the fixed no-graph text without a descriptor; with one, it fails with the missing-state error exactly when some descriptor node has no state, and otherwise is the header, the node lines, the edge lines, the styles and the class lines, in that order |
| DiagramView.DiagramEndsWithClassLines | public/js/graph-visualizer.js:87-94 | the diagram ends with one class line per node state |
| DiagramView.UpdateDiagram | public/js/graph-visualizer.js:97-99 | the stored text becomes the generated diagram, and nothing else changes |
| DiagramView.IdleStates | public/js/graph-visualizer.js:105-113 | the reset states hold each key once and every state is idle |
| DiagramView.IdleStatesKeys | public/js/graph-visualizer.js:105-113 | after a reset, a node has the idle state exactly when it is one of the descriptor's nodes |
| DiagramView.Reset | public/js/graph-visualizer.js:105-113 | without a descriptor nothing changes; with one, every descriptor node is idle and the visualizer is consistent |
| DiagramView.SetGraphStructure | public/js/graph-visualizer.js:8-11 | the descriptor is stored and the states hold exactly its nodes, all idle |
| DiagramView.NextState | public/js/graph-visualizer.js:21-37 | a start makes the node running with no duration; an end makes it completed or failed with the event's duration, for status `success` or `error`; any other status keeps the state; any other event type is ignored |
| DiagramView.HandleEvent | public/js/graph-visualizer.js:13-41 | an unknown node or an unknown event type changes nothing; otherwise only that node's state changes, the keys stay the same, and a consistent visualizer stays consistent and drawable |
| DiagramView.ValidDiagramRenders | public/js/graph-visualizer.js:43-95 | a consistent visualizer can always draw its diagram |
| DiagramView.CompletedNodeShowsDuration | public/js/graph-visualizer.js:22-28 | a node that started and then succeeded after n ms is drawn as `id<br/>nms` |
| DiagramView.EndWithoutStatusKeepsRunning | public/js/graph-visualizer.js:26-32 | an end event without a status leaves a running node running; one with status `error` marks it failed |
| GraphView.FormatNodeLabel | public/js/graph.js:297-301 | `__start__` is labelled `START`, `__end__` is labelled `END`, and any other id by itself |
| GraphView.LabelsTellNodesApart | public/js/graph.js:297-301 | two different ids get the same label only when one is a sentinel and the other the plain id `START` or `END` |
| GraphView.UpdateNodeState | public/js/graph.js:261-262 | the node gets the given state and every other entry is unchanged; a new id is appended to the keys |
| GraphView.Clear | public/js/graph.js:303-304 | no node has a state afterwards |
| GraphView.LastUpdateWins | public/js/graph.js:261-262 | the last state recorded for a node is the one it keeps |
| Layering.CalculateLayers | public/js/graph.js:189-221 | the result is a breadth-first layering from `__start__`: `__start__` alone in layer 0, each node listed once, every node of a layer entered from the layer before, and every edge out of a layer leading at most one layer further |
| Layering.Expand | public/js/graph.js:211-217 | following the edges of one dequeued node marks and queues each unvisited target one layer further, in edge order |
| Layering.PushLayer | public/js/graph.js:205-208 | the dequeued node joins its layer, opening it when it is new |
| Layering.StepKeepsInv | public/js/graph.js:202-218 | one iteration of the search keeps the loop invariant |
| Layering.LayerIsDistance | public/app-single-file.js:321-353 | a node's layer is the length of a shortest walk to it from `__start__` |
| Layering.UnreachableNotListed | public/app-single-file.js:334-350 | a node no walk from `__start__` reaches is in no layer |
| Layering.LayerHasPath | public/js/graph.js:202-217 | every node of layer k is reached by a walk of k edges |
| Layering.PathBoundsLayer | public/js/graph.js:202-217 | the end of a walk of n edges is in a layer no further than n |
| ClientApp.Read | public/app-single-file.js:146 | destructuring a payload throws exactly for `undefined` and `null`, and otherwise reads the property or nothing |
| ClientApp.HandleGenerate | public/app-single-file.js:53-71 | a blank draft only shows an error; otherwise the node states are cleared, loading starts and a socket opens for the trimmed draft |
| ClientApp.HandleClear | public/app-single-file.js:73-81 | the input, node states and results are cleared and the status hidden; the socket and loading are untouched |
| ClientApp.HandleNodeStart | public/app-single-file.js:145-150 | the node becomes `running` and no other entry changes; a missing payload throws |
| ClientApp.HandleNodeEnd | public/app-single-file.js:152-164 | the node becomes `completed` exactly when the status is `success` and `error` otherwise, a missing status included; the status line follows; no other entry changes |
| ClientApp.HandleResult | public/app-single-file.js:166-181 | the success status is shown, loading stops, the results are stored and an opened socket is closed; the input, graph and node states are kept |
| ClientApp.HandleError | public/app-single-file.js:183-190 | throws exactly when the payload is `undefined` or `null`; otherwise shows the error with the payload's message, stops loading, closes an opened socket and keeps results and node states |
| ClientApp.InitializeGraph | public/app-single-file.js:213-260 | reading the descriptor throws the `TypeError` exactly when it is not an object with a `nodes` array and an `edges` array; `undefined` and `null` throw |
| ClientApp.HandleWebSocketMessage | public/app-single-file.js:117-143 | only the five known types act; `graph` throws exactly when `initializeGraph` cannot read the descriptor, and otherwise stores it and says the workflow started; `result` stores the results; `result` and a readable `error` both stop loading and close the socket |
| ClientApp.ClearThenGenerateRefuses | public/app-single-file.js:53-81 | after Clear, Generate refuses to start and leaves the socket alone |
| ClientApp.GenerateSendsTrimmedDraft | public/app-single-file.js:53-71 | a draft padded with white space is sent trimmed and the run starts with no node states |
| ClientApp.DescriptorMessageAccepted | public/app-single-file.js:121-125 | a `graph` message carrying a descriptor the builder produced is stored and the page says the workflow started |
| ClientApp.EmptyGraphMessageThrows | public/app-single-file.js:121-125 | a `graph` message with an `undefined` or `null` payload throws the `TypeError` |
| ClientApp.PageFollowsRelayedNode | public/app-single-file.js:145-164 | a node run through the wrapper and relayed by the runner, as written or corrected, ends `completed` on the page exactly when it returned and `error` otherwise |
| ClientApp.PageFollowsRelayedPair | public/app-single-file.js:145-164 | a relayed start then end marks the node running, then completed for a successful end and error otherwise |
| ClientApp.NodeStartMarksRunning | public/app-single-file.js:127-150 | a `node_start` message marks its node running |
| ClientApp.NodeEndMarksOutcome | public/app-single-file.js:131-164 | a `node_end` message marks its node completed or error by its status |
| ClientApp.VisEventOf | public/js/graph-visualizer.js:13-16 | the destructured event takes its type, node id and string status from the payload; a duration is a number of the payload, and an absent one is `undefined` |
| ClientApp.VisEventReadsRelayedEnd | public/js/graph-visualizer.js:13-16 | a relayed `node_end`, as written or corrected, is read back as its own node, duration and status |
| ClientApp.VisualizerKeepsFailedNodeRunningAsWritten | public/js/graph-visualizer.js:26-32 | with the end event the wrapper writes for a failure, relayed as the runner writes it, the visualizer leaves the failed node running |
| ClientApp.VisualizerMarksFailedNode | public/js/graph-visualizer.js:26-32 | with the corrected end event the visualizer marks the failed node as an error |
| SocketClient.On | public/js/websocket.js:69-74 | the handler is appended to its event's list; every other event keeps its handlers |
| SocketClient.Emit | public/js/websocket.js:76-80 | each handler of the event is called once, in registration order, with the data; an event without handlers calls nothing |
| SocketClient.Register | public/js/websocket.js:69-74 | registering several handlers in turn appends them in that order |
| SocketClient.RegisteredHandlerCalledLast | public/js/websocket.js:69-80 | a handler registered last is called last |
| SocketClient.HandlersInRegistrationOrder | public/js/websocket.js:69-80 | handlers are called in registration order |
| SocketClient.HandleMessage | public/js/websocket.js:42-67 | `graph` emits `graph` then the started status; the four other known types emit their own event with the data; any other type emits nothing |
| SocketClient.UnknownTypeReachesNoHandler | public/js/websocket.js:45-66 | a `completion` message reaches no handler, even one registered under that name |
| SocketClient.GraphBeforeStatus | public/js/websocket.js:46-49 | the graph handlers hear of the descriptor before the status handlers hear the workflow started |
| SocketClient.OnOpen | public/js/websocket.js:14-23 | every `status` handler hears that the workflow is starting, and the request sent is exactly `start_workflow` with the draft |
| SocketClient.OnError | public/js/websocket.js:30-34 | every `status` handler hears of the error, and then every `loading` handler is told `false` |
| SocketClient.OnClose | public/js/websocket.js:36-39 | every `loading` handler, and only they, is told `false` |
| SocketClient.ConnectionLifecycle | public/js/websocket.js:14-39 | opening reports the start and sends the draft; an error reports it and stops loading; a close only stops loading |
| Config.ParseNodeEnv | src/config.ts:5 | finds the environment with the given name, and none when no name matches |
| Config.EnvNameRoundTrip | src/config.ts:5-6 | every environment's name reads back as that environment |
| Config.ValidateNodeEnv | src/config.ts:45-51 | a known name is kept silently; anything else, unset included, gives `dev` with the warning naming the value |
| Config.EnvironmentDefaults | src/config.ts:21-34 | mock data is on exactly outside production |
| Config.ParseBoolean | src/config.ts:53-55 | an unset value is false |
| Config.ParseBooleanAcceptsAnyCase | src/config.ts:53-55 | true exactly for the four letters of `true` in any case |
| Config.MissingKeys | src/config.ts:58 | the missing variables are exactly the listed keys that are unset or empty, kept in declaration order |
| Config.ValidateRequiredEnv | src/config.ts:57-64 | succeeds exactly when all four are set; otherwise the message lists the missing ones in order |
| Config.MissingVariablesAreNamed | src/config.ts:57-64 | every missing variable is named in the error |
| Config.EmptyEnvironmentMessage | src/config.ts:37-42 | with nothing set all four are named, in declaration order |
| Config.Assemble | src/config.ts:73-82 | the `ai` section copies the four variables verbatim |
| Config.CreateConfigAsWritten | src/config.ts:67-83 | the config as written fails exactly when a required variable is missing, with that message |
| Config.MockDataDefaultIgnoredAsWritten | src/config.ts:75 | as written, mock data is just the parsed flag, so it is off whenever `MOCK_DATA` is unset |
| Config.UnsetMockDataInDevelopmentAsWritten | src/config.ts:75 | as written, a development environment without `MOCK_DATA` gets mock data off, against its default |
| Config.ParseBooleanOpt | src/config.ts:53-55 | the parse that keeps `undefined`: absent exactly for an unset value |
| Config.CreateConfig | src/config.ts:67-83 | fails exactly when a required variable is missing; otherwise the environment is the validated one and the `ai` section is copied |
| Config.MockDataFollowsDefault | src/config.ts:75 | with `MOCK_DATA` unset mock data follows the environment default; when set, it is the parsed flag |
| Config.CorrectionOnlyTouchesUnsetMockData | src/config.ts:75 | the corrected and written configs differ exactly when `MOCK_DATA` is unset and the default is on |
| Config.ProductionWithMockData | src/config.ts:67-83 | production with `MOCK_DATA=TRUE` has mock data on |
| UserCli.PostProcess | src/userCli.ts:19-20 | the answer is trimmed unless `trim` is `false`, then lower-cased only for `toLowerCase: true`; with no options it is just trimmed; the result is trimmed when trimming is on, has no capitals when lower-casing is on, and is the answer itself when both are off |
| UserCli.PostProcessIdempotent | src/userCli.ts:19-20 | post-processing twice is the same as once |
| UserCli.Ask | src/userCli.ts:14-22 | the default options trim; empty options trim too; `trim: false` without lower-casing returns the answer unchanged; trimming alone gives the trimmed answer, lower-casing alone the lower-cased answer, and both the lower-cased trimmed answer |
| UserCli.CollectLines | src/userCli.ts:31-41 | the kept lines are a prefix of the typed lines, and there is an answer exactly when some line trims to the terminator |
| UserCli.CollectLinesStopsAtFirstTerminator | src/userCli.ts:33-41 | the line right after the kept lines is a terminator, and none of the kept lines is |
| UserCli.CollectLinesExactly | src/userCli.ts:33-41 | whatever follows the first terminator line is ignored |
| UserCli.AskMultiline | src/userCli.ts:24-48 | the prompt names the terminator, `END` by default, and an answer exists exactly when a terminator line was typed |
| UserCli.AnswerOfCollected | src/userCli.ts:43-45 | the answer is the kept lines joined by line breaks, then post-processed |
| UserCli.MultilineKeepsLines | src/userCli.ts:43-45 | with both options off, the answer splits at its line breaks back into the kept lines |
| UserCli.Print | src/userCli.ts:50-57 | the message, a space before the arguments when there are any, and a final line break |
| UserCli.PrintIsSpacedArguments | src/userCli.ts:52-56 | for any number of arguments, the text written is the message, then each rendered argument in order after a single space, then a line break |
| UserCli.PrintOneMore | src/userCli.ts:52-56 | one more argument is written after one more space, just before the line break, and nothing written before it changes |
| UserCli.PrintOneArgument | src/userCli.ts:52-55 | one argument is written after exactly one space, as its JSON text or its string form |
| UserCli.RenderAll | src/userCli.ts:54 | every argument is rendered in order |

## Left out

- The LangGraph base class is not part of this model. `nodes`, `allEdges` and `compiled` are plain state. Its own checks (duplicate nodes, registering after compile) are not modelled. Running a compiled graph is not modelled either: node outcomes and node-event streams are inputs.
- The `EventEmitter` broadcast and `nodeStartTimes` are not modelled. The start map is never read. Timestamps and durations are integer inputs.
- The LLM agents, prompts and search tool are not modelled: they are foreign calls. An agent call is recorded as the call a node makes.
- The regular expressions of the draft gate are not interpreted. Their match counts and hits are an input record. The keyword test is modelled exactly.
- `CvWorkflow.LoopFrom`/`TraceLength`: the node order assumes every node succeeds. Running the graph belongs to the library.
- The WebSocket and HTTP transport are not modelled. Neither are server wiring, the periodic sweep timer or UUID generation: the session id and `now` are parameters.
- D3/SVG layout and drawing (`initialize`, `calculatePositions`, `createCurvedPath`, and `initializeGraph` past reading its argument) are not modelled: they are floating point and DOM work. So are the modal, export and event-stack files.
- `Layering.CalculateLayers`: the contract fixes the layering up to the order of nodes inside a layer; that order (edge order) is not stated. The `nodes` argument is unused by the source and does not appear in the contract.
- `GraphView.UpdateNodeState` and `GraphView.Clear` model the state map only. The class changes on the drawn nodes and edges are DOM work.
- `JSON.stringify`/`String` renderings of `print` arguments are given, as `Arg`. They are not computed.
- `Text.ToLower` maps ASCII capitals only. The project keywords and `true` are ASCII, so the answers modelled do not depend on other letters. A non-ASCII answer lower-cased by `ask` is not modelled exactly.
- `Text.Utf16Length` counts a character outside the Basic Multilingual Plane as two units, as JavaScript's `length` does.
- `process.env` is a map from names to values. Loading `.env` files is not modelled. The warning `validateNodeEnv` prints is its text.
- `UserCli.CollectLines`: a terminal that never sends the terminator yields no answer (the promise never settles), rather than waiting.
- The runner relays the events of every session; `workflowRunner.ts:27-50` applies no `sessionId` filter.
- `addConditionalEdges` accepts an empty outcome list and does not check `compiled` (`eventEnhancedFlow.ts:81-98`).
- EventGraph.AddNodes, EventGraph.FirstStray, EventGraph.ConditionalEdges, EventGraph.ToGraphDto and EventGraph.GenerateMermaidGraph keep every object key in insertion order. JavaScript's `Object.keys`/`Object.entries` list array-index-like keys (`"0"`, `"42"`) first, in numeric order. The model agrees with the source only when no node id, path-map key or conditional source is such a key.
- Runner.Run: the node events a run relays are an input. `workflowRunner.ts:2` imports `workflowGraph` from the CV workflow module, which builds a plain `StateGraph` and exports only `runWorkflow`, so no modelled workflow produces them.
- Runner.Run: the socket's open state is one value for the whole run. A socket that closes part-way through a run, so that later sends are skipped, is not modelled.
- NodeWrapper.InvokeAsWritten: a listener that throws while the success `node_end` is emitted sends control into the `catch` block, which emits a second `node_end`. Listeners are assumed not to throw.
- ClientApp.HandleWebSocketMessage: for `graph`, only the reading of the descriptor is modelled. The `TypeError` the drawing throws for a node that no walk from `__start__` reaches (it has no position, `app-single-file.js:250-255`; `Layering.UnreachableNotListed`) is not, nor one for malformed edge or node entries. The `graphData` assignment made before a throw is not kept, since a failure carries only the message.
- SocketClient.On / SocketClient.Emit: two source paths are not modelled. First, the registry is a plain object (`websocket.js:5`). For an event named after an inherited `Object.prototype` member (`constructor`, `toString`, `__proto__` and the like), `this.handlers[event]` is already truthy, so `on` throws at `.push` and `emit` throws at `.forEach`. No caller reaches this path: `app.js:64-121` registers `status`, `loading`, `node_start`, `node_end`, `completion` and `error`, and the manager emits only fixed names, none of them inherited. Second, a handler that throws ends the `forEach` (`websocket.js:78`), so the handlers after it are not called. Handlers are opaque here and assumed to return. The page's destructuring handlers (`app.js:64`, `72`, `84`, `121`) do throw on a `null` payload, as ClientApp.Read states for the single-file page.
- ClientApp.VisEventOf: a non-integer `duration` is read as `undefined`. The server's durations are differences of two `Date.now()` readings, so they are whole milliseconds.

## Findings

| source | as written | input that shows it | evidently intended | confidence | as-written member | corrected member |
|---|---|---|---|---|---|---|
| src/core/workflows/eventEnhancedFlow.ts:219-226 | the failure `node_end` event carries `data.error` but no `status` | any node function that throws | `status: 'error'`, the shape the end-event type at line 20 declares; the visualizer (graph-visualizer.js:29) waits for it to mark the node failed | not executed | NodeWrapper.InvokeAsWritten, NodeWrapper.AsWrittenFailureIsIllTyped, ClientApp.VisualizerKeepsFailedNodeRunningAsWritten | NodeWrapper.Invoke, ClientApp.VisualizerMarksFailedNode |
| src/web/workflowRunner.ts:47 | the relayed end payload reads `event.error`, which the wrapper never sets | any node function that throws `new Error('x')` | relay the message the wrapper puts in `event.data.error` | not executed | Runner.EndPayloadAsWritten, Runner.RelayedErrorIsLost | Runner.EndPayload, Runner.RelayedErrorCarriesMessage |
| src/config.ts:75 | `parseBoolean(MOCK_DATA) ?? defaults.mockData`, but `parseBoolean` returns `false` for an unset value, never `undefined` | `NODE_ENV=dev` with `MOCK_DATA` unset gives `mockData: false` | fall back to the environment default (`true` for `dev` and `test`) | not executed | Config.CreateConfigAsWritten, Config.MockDataDefaultIgnoredAsWritten, Config.UnsetMockDataInDevelopmentAsWritten | Config.CreateConfig, Config.MockDataFollowsDefault |
| src/core/workflows/projectExperienceForCV.ts:37-45 | the `generate` node checks the fallback `input` but passes `promptEnhancerOutput.enhancedPrompt` to the author | no enhancer output and draft `Built a booking platform`: a `TypeError`; an empty enhanced prompt: an empty author prompt | pass `input` | not executed | CvWorkflow.GenerateNodeAsWritten, CvWorkflow.GenerateAsWrittenDropsDraft, CvWorkflow.GenerateAsWrittenPassesEmptyPrompt | CvWorkflow.GenerateNode, CvWorkflow.GenerateAgreesOnUsablePrompt |
