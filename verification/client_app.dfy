/** The bookkeeping part of graph.js's D3 `GraphVisualizer`: a state string
    per node id and the label drawn for a node. */
module GraphView {
  import opened Wrappers
  import opened OrderedMap
  import opened EventGraph

  /** `formatNodeLabel(id)`. */
  function FormatNodeLabel(id: string): (l: string)
    ensures id == START ==> l == "START"
    ensures id == END ==> l == "END"
    ensures id != START && id != END ==> l == id
  {
    if id == START then "START" else if id == END then "END" else id
  }

  /** Two different ids get different labels unless one of them is the
      plain id `START` or `END`, which is drawn like a sentinel. */
  lemma LabelsTellNodesApart(a: string, b: string)
    requires a != b
    ensures FormatNodeLabel(a) == FormatNodeLabel(b) <==>
      ({a, b} == {START, "START"} || {a, b} == {END, "END"})
  {
  }

  datatype View = View(nodeStates: Assoc<string, string>)

  /** `updateNodeState(nodeId, state)`, the state map only. */
  function UpdateNodeState(v: View, nodeId: string, state: string): (r: View)
    ensures Get(r.nodeStates, nodeId) == Some(state)
    ensures forall id :: id != nodeId ==> Get(r.nodeStates, id) == Get(v.nodeStates, id)
    ensures nodeId in Keys(v.nodeStates) ==> Keys(r.nodeStates) == Keys(v.nodeStates)
    ensures nodeId !in Keys(v.nodeStates) ==> Keys(r.nodeStates) == Keys(v.nodeStates) + [nodeId]
  {
    var r := View(Put(v.nodeStates, nodeId, state));
    assert forall id :: Get(r.nodeStates, id) == if id == nodeId then Some(state) else Get(v.nodeStates, id) by {
      forall id ensures Get(r.nodeStates, id) == if id == nodeId then Some(state) else Get(v.nodeStates, id) {
        PutGet(v.nodeStates, nodeId, state, id);
      }
    }
    r
  }

  /** `clear()`, the state map only. */
  function Clear(v: View): (r: View)
    ensures forall id :: Get(r.nodeStates, id).None?
  {
    View([])
  }

  /** The last state recorded for a node is the one it keeps, whatever was
      recorded for other nodes after it. */
  lemma LastUpdateWins(v: View, id: string, s1: string, other: string, s2: string, s3: string)
    requires other != id
    ensures Get(UpdateNodeState(UpdateNodeState(UpdateNodeState(v, id, s1), other, s2), id, s3).nodeStates, id) == Some(s3)
    ensures Get(UpdateNodeState(UpdateNodeState(UpdateNodeState(v, id, s1), other, s2), id, s3).nodeStates, other) == Some(s2)
  {
  }
}

/** The single-file browser client (app-single-file.js): the page state it
    keeps between server messages, and what each user action and each
    message does to it. DOM rendering, the D3 drawing and the diagram modal
    are not modelled; the status line is kept as the template shown and the
    values put into it. */
module ClientApp {
  import opened Wrappers
  import opened Text
  import opened OrderedMap
  import opened Values
  import opened Protocol
  import opened NodeWrapper
  import opened Runner
  import DiagramView
  import EventGraph

  /** A property read from a received payload; absent for `undefined`. */
  type Prop = Option<Json>

  /** The text of the status line. */
  datatype Notice =
    | Plain(text: string)
    | RunningNode(nodeId: Prop)
    | CompletedNode(nodeId: Prop, duration: Prop)
    | FailedNode(nodeId: Prop)
    | ErrorWith(message: Prop)

  datatype StatusLine = StatusLine(notice: Notice, kind: string)

  /** The `ws` variable: never opened, opened for a draft, or closed. */
  datatype Socket = NoSocket | Connecting(draft: string) | Closed

  datatype Client = Client(
    input: string,
    graphData: Prop,
    nodeStates: Assoc<Prop, string>,
    status: Option<StatusLine>,
    statusHidden: bool,
    loading: bool,
    results: Option<Prop>,
    ws: Socket)

  /** The page as loaded: `graphData` starts as `null`. */
  function Initial(input: string): Client {
    Client(input, Some(JNull), [], None, false, false, None, NoSocket)
  }

  const TypeErrorText: string := "TypeError: cannot read a property of undefined or null"

  /** Reading property `name` of a payload: a `TypeError` for `undefined`
      and `null`; absent unless the payload is an object holding it. */
  function Read(data: Prop, name: string): (r: Result<Prop, string>)
    ensures r.Failure? <==> data.None? || data == Some(JNull)
    ensures r.Success? && r.value.Some? ==> data.value.JObj? && name in data.value.fields && r.value.value == data.value.fields[name]
  {
    match data
    case None => Failure(TypeErrorText)
    case Some(JNull) => Failure(TypeErrorText)
    case Some(JObj(f)) => Success(if name in f then Some(f[name]) else None)
    case Some(_) => Success(None)
  }

  function ShowStatus(c: Client, n: Notice, kind: string): Client {
    c.(status := Some(StatusLine(n, kind)))
  }

  /** `ws.close()` when a socket was ever opened. */
  function CloseSocket(s: Socket): Socket {
    if s.NoSocket? then NoSocket else Closed
  }

  /** `handleGenerate()`: a blank draft only shows an error; otherwise the
      node states are cleared, the results hidden, the button set loading
      and a socket opened for the trimmed draft. */
  function HandleGenerate(c: Client): (r: Client)
    ensures Trim(c.input) == "" ==> r == c.(status := Some(StatusLine(Plain("Please enter a project description"), "error")))
    ensures Trim(c.input) != "" ==>
      r.nodeStates == [] && r.ws == Connecting(Trim(c.input)) && r.loading && r.results.None?
    ensures r.input == c.input && r.graphData == c.graphData
  {
    var draft := Trim(c.input);
    if draft == "" then ShowStatus(c, Plain("Please enter a project description"), "error")
    else
      var c1 := c.(nodeStates := [], results := None, loading := true);
      ShowStatus(c1, Plain("Connecting to workflow..."), "info").(ws := Connecting(draft))
  }

  /** `handleClear()`. */
  function HandleClear(c: Client): (r: Client)
    ensures r.input == "" && r.nodeStates == [] && r.results.None? && r.statusHidden
    ensures r.ws == c.ws && r.loading == c.loading && r.graphData == c.graphData
  {
    c.(input := "", nodeStates := [], results := None, statusHidden := true)
  }

  /** `handleNodeStart(data)`. */
  function HandleNodeStart(c: Client, data: Prop): (r: Result<Client, string>)
    ensures r.Failure? <==> data.None? || data == Some(JNull)
    ensures r.Success? ==> var id := Read(data, "nodeId").value;
      Get(r.value.nodeStates, id) == Some("running")
      && (forall k :: k != id ==> Get(r.value.nodeStates, k) == Get(c.nodeStates, k))
  {
    match Read(data, "nodeId")
    case Failure(e) => Failure(e)
    case Success(id) =>
      var states := Put(c.nodeStates, id, "running");
      assert forall k :: k != id ==> Get(states, k) == Get(c.nodeStates, k) by {
        forall k | k != id ensures Get(states, k) == Get(c.nodeStates, k) {
          PutGet(c.nodeStates, id, "running", k);
        }
      }
      PutGet(c.nodeStates, id, "running", id);
      Success(ShowStatus(c.(nodeStates := states), RunningNode(id), "info"))
  }

  /** `handleNodeEnd(data)`: completed exactly when the status is the
      string `success`, failed for any other status, a missing one included. */
  function HandleNodeEnd(c: Client, data: Prop): (r: Result<Client, string>)
    ensures r.Failure? <==> data.None? || data == Some(JNull)
    ensures r.Success? ==> var id := Read(data, "nodeId").value;
      && Get(r.value.nodeStates, id) == Some(if Read(data, "status").value == Some(JStr("success")) then "completed" else "error")
      && (forall k :: k != id ==> Get(r.value.nodeStates, k) == Get(c.nodeStates, k))
      && r.value.status.Some?
      && r.value.status.value.kind == (if Read(data, "status").value == Some(JStr("success")) then "info" else "error")
  {
    match Read(data, "nodeId")
    case Failure(e) => Failure(e)
    case Success(id) =>
      var st := Read(data, "status").value;
      var state := if st == Some(JStr("success")) then "completed" else "error";
      var states := Put(c.nodeStates, id, state);
      assert forall k :: k != id ==> Get(states, k) == Get(c.nodeStates, k) by {
        forall k | k != id ensures Get(states, k) == Get(c.nodeStates, k) {
          PutGet(c.nodeStates, id, state, k);
        }
      }
      PutGet(c.nodeStates, id, state, id);
      var c1 := c.(nodeStates := states);
      if st == Some(JStr("success")) then Success(ShowStatus(c1, CompletedNode(id, Read(data, "duration").value), "info"))
      else Success(ShowStatus(c1, FailedNode(id), "error"))
  }

  /** `handleResult(data)`. */
  function HandleResult(c: Client, data: Prop): (r: Client)
    ensures !r.loading && r.results == Some(data)
    ensures r.status == Some(StatusLine(Plain("Workflow completed successfully!"), "success"))
    ensures !r.ws.Connecting? && (r.ws.NoSocket? <==> c.ws.NoSocket?)
    ensures r.input == c.input && r.graphData == c.graphData && r.nodeStates == c.nodeStates
  {
    var c1 := ShowStatus(c, Plain("Workflow completed successfully!"), "success");
    c1.(loading := false, results := Some(data), ws := CloseSocket(c.ws))
  }

  /** `handleError(data)`. */
  function HandleError(c: Client, data: Prop): (r: Result<Client, string>)
    ensures r.Failure? <==> data.None? || data == Some(JNull)
    ensures r.Success? ==> !r.value.loading && r.value.status == Some(StatusLine(ErrorWith(Read(data, "message").value), "error"))
    ensures r.Success? ==> !r.value.ws.Connecting? && (r.value.ws.NoSocket? <==> c.ws.NoSocket?)
    ensures r.Success? ==> r.value.results == c.results && r.value.nodeStates == c.nodeStates && r.value.input == c.input
  {
    match Read(data, "message")
    case Failure(e) => Failure(e)
    case Success(msg) => Success(ShowStatus(c, ErrorWith(msg), "error").(loading := false, ws := CloseSocket(c.ws)))
  }

  /** The message types the page acts on. */
  const Handled: set<string> := {"graph", "node_start", "node_end", "result", "error"}

  /** Whether `initializeGraph(data)` gets past reading its argument:
      destructuring `{ nodes, edges }` throws for `undefined` and `null`,
      `edges.forEach` needs an array of edges and `nodes.map` an array of
      nodes. */
  predicate Drawable(data: Prop) {
    && data.Some? && data.value.JObj?
    && "nodes" in data.value.fields && data.value.fields["nodes"].JArr?
    && "edges" in data.value.fields && data.value.fields["edges"].JArr?
  }

  /** `initializeGraph(data)` up to its drawing: the `TypeError` it throws
      for a descriptor it cannot read. */
  function InitializeGraph(data: Prop): (r: Result<(), string>)
    ensures r.Success? <==> Drawable(data)
    ensures data.None? || data == Some(JNull) ==> r == Failure(TypeErrorText)
    ensures r.Failure? ==> r.error == TypeErrorText
  {
    match Read(data, "nodes")
    case Failure(e) => Failure(e)
    case Success(nodes) =>
      var edges := Read(data, "edges").value;
      if edges.Some? && edges.value.JArr? && nodes.Some? && nodes.value.JArr? then Success(())
      else Failure(TypeErrorText)
  }

  /** `handleWebSocketMessage(message)`; the D3 drawing of a `graph` is not
      modelled. */
  function HandleWebSocketMessage(c: Client, m: Message): (r: Result<Client, string>)
    ensures m.kind !in Handled ==> r == Success(c)
    ensures m.kind == "graph" ==> (r.Success? <==> Drawable(m.data))
    ensures m.kind == "graph" && r.Failure? ==> r.error == TypeErrorText
    ensures m.kind == "graph" && r.Success? ==>
      r.value == c.(graphData := m.data, status := Some(StatusLine(Plain("Workflow started"), "info")))
    ensures m.kind == "result" ==> r.Success? && !r.value.loading && r.value.results == Some(m.data) && r.value.nodeStates == c.nodeStates
    ensures (m.kind == "result" || m.kind == "error") && r.Success? ==> !r.value.ws.Connecting? && !r.value.loading
    ensures r.Success? ==> r.value.input == c.input
  {
    if m.kind == "graph" then
      match InitializeGraph(m.data)
      case Failure(e) => Failure(e)
      case Success(_) => Success(ShowStatus(c.(graphData := m.data), Plain("Workflow started"), "info"))
    else if m.kind == "node_start" then HandleNodeStart(c, m.data)
    else if m.kind == "node_end" then HandleNodeEnd(c, m.data)
    else if m.kind == "result" then Success(HandleResult(c, m.data))
    else if m.kind == "error" then HandleError(c, m.data)
    else Success(c)
  }

  /** A graph descriptor as `JSON.stringify` renders it. */
  function DescriptorJson(dto: EventGraph.GraphDto): Json {
    JObj(map["nodes" := JArr(seq(|dto.nodes|, i requires 0 <= i < |dto.nodes| => JStr(dto.nodes[i]))),
             "edges" := JArr(seq(|dto.edges|, i requires 0 <= i < |dto.edges| =>
               JObj(map["from" := JStr(dto.edges[i].from), "to" := JStr(dto.edges[i].to),
                        "isConditional" := JBool(dto.edges[i].isConditional)])))])
  }

  // ---- properties across operations ----

  /** A descriptor the graph builder produced gets past `initializeGraph`'s
      reading: the page stores it and says the workflow started. */
  lemma DescriptorMessageAccepted(c: Client, dto: EventGraph.GraphDto)
    ensures var r := HandleWebSocketMessage(c, Message("graph", Some(DescriptorJson(dto))));
      && r.Success?
      && r.value.graphData == Some(DescriptorJson(dto))
      && r.value.status == Some(StatusLine(Plain("Workflow started"), "info"))
  {
  }

  /** A `graph` message without a payload throws before the status line. */
  lemma EmptyGraphMessageThrows(c: Client)
    ensures HandleWebSocketMessage(c, Message("graph", None)) == Failure(TypeErrorText)
    ensures HandleWebSocketMessage(c, Message("graph", Some(JNull))) == Failure(TypeErrorText)
  {
  }

  /** After Clear the input is empty, so Generate refuses to start. */
  lemma ClearThenGenerateRefuses(c: Client)
    ensures HandleGenerate(HandleClear(c)).ws == c.ws
    ensures HandleGenerate(HandleClear(c)).status == Some(StatusLine(Plain("Please enter a project description"), "error"))
  {
  }

  /** A draft padded with whitespace is sent trimmed, and the new run starts
      with no node states. */
  lemma GenerateSendsTrimmedDraft(c: Client, pad: string, draft: string)
    requires forall i :: 0 <= i < |pad| ==> IsSpace(pad[i])
    requires Trim(draft) == draft && draft != ""
    ensures HandleGenerate(c.(input := pad + draft + pad)).ws == Connecting(draft)
    ensures HandleGenerate(c.(input := pad + draft + pad)).nodeStates == []
  {
    TrimPadded(pad, draft);
  }

  /** `LeadingSpaces`/`TrailingSpaces` of a whitespace-padded trimmed text. */
  lemma TrimPadded(pad: string, draft: string)
    requires forall i :: 0 <= i < |pad| ==> IsSpace(pad[i])
    requires Trim(draft) == draft && draft != ""
    ensures Trim(pad + draft + pad) == draft
  {
    var s := pad + draft + pad;
    assert !IsSpace(draft[0]) && !IsSpace(draft[|draft| - 1]);
    LeadingPad(pad, draft + pad);
    assert (pad + draft + pad) == pad + (draft + pad);
    TrailingPad(pad + draft, pad);
  }

  lemma {:induction false} LeadingPad(pad: string, rest: string)
    requires forall i :: 0 <= i < |pad| ==> IsSpace(pad[i])
    requires |rest| > 0 && !IsSpace(rest[0])
    ensures LeadingSpaces(pad + rest) == |pad|
    decreases |pad|
  {
    if |pad| == 0 {
      assert pad + rest == rest;
    } else {
      assert (pad + rest)[1..] == pad[1..] + rest;
      LeadingPad(pad[1..], rest);
    }
  }

  lemma {:induction false} TrailingPad(front: string, pad: string)
    requires forall i :: 0 <= i < |pad| ==> IsSpace(pad[i])
    requires |front| > 0 && !IsSpace(front[|front| - 1])
    ensures TrailingSpaces(front + pad) == |pad|
    decreases |pad|
  {
    if |pad| == 0 {
      assert front + pad == front;
    } else {
      assert (front + pad)[..|front + pad| - 1] == front + pad[..|pad| - 1];
      TrailingPad(front, pad[..|pad| - 1]);
    }
  }

  /** The payload a relayed event arrives with. */
  function Payload(v: Version, e: NodeEvent): Prop {
    RelayMessage(v, e).data
  }

  /** A node run through the wrapper and relayed by the runner ends
      `completed` on the page when the node returned and `error` when it
      threw. The page treats a missing status as a failure, so this holds
      for the source as written as well as for the corrected one. */
  lemma PageFollowsRelayedNode(v: Version, c: Client, nodeId: string, state: State, config: Option<RunConfig>,
                               t0: int, t1: int, inner: StepOutcome)
    ensures var evs := InvokeBy(v, nodeId, state, config, t0, t1, inner).events;
      var r1 := HandleWebSocketMessage(c, RelayMessage(v, evs[0]));
      && r1.Success?
      && Get(r1.value.nodeStates, Some(JStr(nodeId))) == Some("running")
      && var r2 := HandleWebSocketMessage(r1.value, RelayMessage(v, evs[1]));
         && r2.Success?
         && Get(r2.value.nodeStates, Some(JStr(nodeId))) == Some(if inner.Returned? then "completed" else "error")
  {
    var evs := InvokeBy(v, nodeId, state, config, t0, t1, inner).events;
    PageFollowsRelayedPair(v, c, evs[0], evs[1]);
  }

  /** A relayed start and end for one node: the page marks the node
      running, then completed exactly when the end event says success. */
  lemma PageFollowsRelayedPair(v: Version, c: Client, start: NodeEvent, end: NodeEvent)
    requires start.NodeStart? && end.NodeEnd? && end.nodeId == start.nodeId
    ensures var r1 := HandleWebSocketMessage(c, RelayMessage(v, start));
      && r1.Success?
      && Get(r1.value.nodeStates, Some(JStr(start.nodeId))) == Some("running")
      && var r2 := HandleWebSocketMessage(r1.value, RelayMessage(v, end));
         && r2.Success?
         && Get(r2.value.nodeStates, Some(JStr(start.nodeId)))
            == Some(if end.status == Some(StatusSuccess) then "completed" else "error")
  {
    var id := Some(JStr(start.nodeId));
    var m0 := RelayMessage(v, start);
    RelayedNodeId(v, start);
    NodeStartMarksRunning(c, m0, id);
    var r1 := HandleWebSocketMessage(c, m0);
    RelayedNodeId(v, end);
    RelayedStatus(v, end);
    NodeEndMarksOutcome(r1.value, RelayMessage(v, end), id);
  }

  /** A relayed node event names its node. */
  lemma RelayedNodeId(v: Version, e: NodeEvent)
    ensures Read(RelayMessage(v, e).data, "nodeId") == Success(Some(JStr(e.nodeId)))
  {
  }

  /** The relayed end payload reads `success` exactly for a successful end. */
  lemma RelayedStatus(v: Version, end: NodeEvent)
    requires end.NodeEnd?
    ensures end.status == Some(StatusSuccess) <==> Read(RelayMessage(v, end).data, "status") == Success(Some(JStr("success")))
  {
    if end.status == Some(StatusError) {
      assert StatusText(StatusError) != "success" by {
        assert StatusText(StatusError)[0] != 's';
      }
    }
  }

  lemma NodeStartMarksRunning(c: Client, m: Message, id: Prop)
    requires m.kind == "node_start" && Read(m.data, "nodeId") == Success(id)
    ensures var r := HandleWebSocketMessage(c, m);
      r.Success? && Get(r.value.nodeStates, id) == Some("running")
  {
  }

  lemma NodeEndMarksOutcome(c: Client, m: Message, id: Prop)
    requires m.kind == "node_end" && Read(m.data, "nodeId") == Success(id)
    ensures var r := HandleWebSocketMessage(c, m);
      && r.Success?
      && Get(r.value.nodeStates, id)
         == Some(if Read(m.data, "status") == Success(Some(JStr("success"))) then "completed" else "error")
  {
  }

  /** The event the standalone visualizer reads out of a relayed payload:
      `{ type, nodeId, duration, status }`, with absent strings for
      properties that are not strings. The server's durations are
      differences of two `Date.now()` readings and so whole milliseconds;
      a non-integer duration, which the server never sends, is read here
      as `undefined`. */
  function VisEventOf(fields: map<string, Json>): (r: DiagramView.VisEvent)
    ensures "type" in fields && fields["type"].JStr? ==> r.kind == fields["type"].s
    ensures "nodeId" in fields && fields["nodeId"].JStr? ==> r.nodeId == fields["nodeId"].s
    ensures r.status.Some? <==> "status" in fields && fields["status"].JStr?
    ensures r.status.Some? ==> fields["status"] == JStr(r.status.value)
    ensures r.duration.DMs? ==> "duration" in fields && fields["duration"] == JNum(r.duration.ms as real)
    ensures "duration" !in fields ==> r.duration == DiagramView.DUndefined
  {
    var str := (k: string) => if k in fields && fields[k].JStr? then fields[k].s else "";
    var duration := if "duration" in fields then
        (if fields["duration"].JNum? && fields["duration"].n == fields["duration"].n.Floor as real
         then DiagramView.DMs(fields["duration"].n.Floor) else DiagramView.DUndefined)
      else DiagramView.DUndefined;
    var status := if "status" in fields && fields["status"].JStr? then Some(fields["status"].s) else None;
    DiagramView.VisEvent(str("type"), str("nodeId"), duration, status)
  }

  /** The visualizer reads a relayed `node_end` back as the event it came
      from: its node, its duration and its status, in either version. */
  lemma VisEventReadsRelayedEnd(ver: Version, e: NodeEvent)
    requires e.NodeEnd?
    ensures VisEventOf(RelayMessage(ver, e).data.value.fields)
            == DiagramView.VisEvent("node_end", e.nodeId, DiagramView.DMs(e.duration),
                                    if e.status.Some? then Some(StatusText(e.status.value)) else None)
  {
    var f := RelayMessage(ver, e).data.value.fields;
    assert f["duration"] == JNum(e.duration as real);
    assert (e.duration as real).Floor == e.duration;
  }

  /** A failed node as the wrapper writes its end event and the runner
      relays it: the visualizer reads no status and leaves the node drawn
      as running. */
  lemma VisualizerKeepsFailedNodeRunningAsWritten(v: DiagramView.Visualizer, nodeId: string, state: State,
                                                  config: Option<RunConfig>, t0: int, t1: int, e: Thrown)
    requires DiagramView.Valid(v)
    requires Get(v.nodeStates, nodeId) == Some(DiagramView.NodeState(DiagramView.Running, DiagramView.DNull))
    ensures var ev := InvokeAsWritten(nodeId, state, config, t0, t1, Raised(e)).events[1];
      var r := DiagramView.HandleEvent(v, VisEventOf(EndPayloadAsWritten(ev)));
      r.Success? && Get(r.value.nodeStates, nodeId) == Some(DiagramView.NodeState(DiagramView.Running, DiagramView.DNull))
  {
    var ev := InvokeAsWritten(nodeId, state, config, t0, t1, Raised(e)).events[1];
    assert VisEventOf(EndPayloadAsWritten(ev)).kind == "node_end" && VisEventOf(EndPayloadAsWritten(ev)).status.None?;
    DiagramView.EndWithoutStatusKeepsRunning(v, nodeId, VisEventOf(EndPayloadAsWritten(ev)).duration);
  }

  /** With the status the end-event type requires, the same failure is
      drawn as an error. */
  lemma VisualizerMarksFailedNode(v: DiagramView.Visualizer, nodeId: string, state: State,
                                  config: Option<RunConfig>, t0: int, t1: int, e: Thrown)
    requires DiagramView.Valid(v)
    requires Get(v.nodeStates, nodeId) == Some(DiagramView.NodeState(DiagramView.Running, DiagramView.DNull))
    ensures var ev := Invoke(nodeId, state, config, t0, t1, Raised(e)).events[1];
      var r := DiagramView.HandleEvent(v, VisEventOf(EndPayload(ev)));
      r.Success? && Get(r.value.nodeStates, nodeId).value.status == DiagramView.Failed
  {
    var ev := Invoke(nodeId, state, config, t0, t1, Raised(e)).events[1];
    assert VisEventOf(EndPayload(ev)).kind == "node_end" && VisEventOf(EndPayload(ev)).status == Some("error");
  }
}
