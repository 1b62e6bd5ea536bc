/** The browser's `GraphVisualizer` (graph-visualizer.js): a status per node
    of the received graph descriptor, updated from node events, and a
    Mermaid diagram regenerated from both.

    A JavaScript `TypeError` the code would throw (reading `status` of a
    node that has no state) is a `Failure` carrying its message. */
module DiagramView {
  import opened Wrappers
  import opened Text
  import opened OrderedMap
  import opened EventGraph

  datatype NodeStatus = Idle | Running | Completed | Failed

  /** The status string the code stores (`'error'` for a failed node). */
  function StatusName(s: NodeStatus): string {
    match s
    case Idle => "idle"
    case Running => "running"
    case Completed => "completed"
    case Failed => "error"
  }

  /** A duration as the state holds it: `null`, `undefined` (an event
      without one), or a number of milliseconds. */
  datatype Duration = DNull | DUndefined | DMs(ms: int)

  datatype NodeState = NodeState(status: NodeStatus, duration: Duration)

  const IdleState: NodeState := NodeState(Idle, DNull)

  datatype Visualizer = Visualizer(graphDto: Option<GraphDto>, nodeStates: Assoc<string, NodeState>, mermaidText: string)

  function NewVisualizer(): Visualizer {
    Visualizer(None, [], "")
  }

  /** An event as `handleEvent` destructures it. */
  datatype VisEvent = VisEvent(kind: string, nodeId: string, duration: Duration, status: Option<string>)

  const NoGraphText: string := "graph TD\n  A[No graph loaded]"
  const MissingStateError: string := "Cannot read properties of undefined (reading 'status')"

  // ---- the diagram ----

  function DurationText(d: Duration): string {
    match d
    case DNull => "null"
    case DUndefined => "undefined"
    case DMs(n) => IntToString(n)
  }

  /** The label of a node: its id, with the duration appended for a
      completed node whose duration is not `null`. */
  function Label(id: string, st: NodeState): (l: string)
    ensures st.status == Completed && st.duration != DNull ==> l == id + "<br/>" + DurationText(st.duration) + "ms"
    ensures !(st.status == Completed && st.duration != DNull) ==> l == id
  {
    if st.status == Completed && st.duration != DNull then id + "<br/>" + DurationText(st.duration) + "ms" else id
  }

  /** The line of a node: the sentinels are drawn as stadiums. */
  function NodeDiagramLine(id: string, st: NodeState): (l: string)
    ensures id == START || id == END ==> l == "  " + id + "([" + Label(id, st) + "])\n"
    ensures id != START && id != END ==> l == "  " + id + "[" + Label(id, st) + "]\n"
  {
    if id == START || id == END then "  " + id + "([" + Label(id, st) + "])\n"
    else "  " + id + "[" + Label(id, st) + "]\n"
  }

  /** A conditional edge is drawn dotted and labelled `conditional`, a
      plain edge as a solid arrow. */
  function EdgeDiagramLine(e: EdgeDto): (l: string)
    ensures e.isConditional ==> l == "  " + e.from + " -.->|conditional| " + e.to + "\n"
    ensures !e.isConditional ==> l == "  " + e.from + " --> " + e.to + "\n"
  {
    if e.isConditional then "  " + e.from + " -.->|conditional| " + e.to + "\n"
    else "  " + e.from + " --> " + e.to + "\n"
  }

  function ClassLine(id: string, st: NodeState): string {
    "  class " + id + " " + StatusName(st.status) + "\n"
  }

  const StyleLines: seq<string> := [
    "\n",
    "  %% Styles\n",
    "  classDef error fill:#ffebee,stroke:#c62828,stroke-width:2px\n",
    "  classDef completed fill:#e8f5e8,stroke:#1b5e20,stroke-width:2px\n",
    "  classDef running fill:#fff3e0,stroke:#e65100,stroke-width:3px\n",
    "  classDef idle fill:#fafafa,stroke:#9e9e9e,stroke-width:1px\n",
    "\n",
    "  %% State\n"]

  /** One line per descriptor node, in descriptor order; the first node
      without a state raises the `TypeError`. */
  function NodeDiagramLines(nodes: seq<string>, states: Assoc<string, NodeState>): (r: Result<seq<string>, string>)
    ensures r.Success? <==> forall i :: 0 <= i < |nodes| ==> nodes[i] in Keys(states)
    ensures r.Failure? ==> r.error == MissingStateError
    ensures r.Success? ==> |r.value| == |nodes|
    ensures r.Success? ==> forall i :: 0 <= i < |nodes| ==> r.value[i] == NodeDiagramLine(nodes[i], Get(states, nodes[i]).value)
  {
    if |nodes| == 0 then Success([])
    else match Get(states, nodes[0])
      case None => Failure(MissingStateError)
      case Some(st) =>
        match NodeDiagramLines(nodes[1..], states)
        case Failure(e) =>
          Failure(e)
        case Success(rest) =>
          assert forall i :: 1 <= i < |nodes| ==> nodes[i] == nodes[1..][i - 1];
          Success([NodeDiagramLine(nodes[0], st)] + rest)
  }

  function EdgeDiagramLines(edges: seq<EdgeDto>): (ls: seq<string>)
    ensures |ls| == |edges| && forall i :: 0 <= i < |edges| ==> ls[i] == EdgeDiagramLine(edges[i])
  {
    seq(|edges|, i requires 0 <= i < |edges| => EdgeDiagramLine(edges[i]))
  }

  function ClassLines(states: Assoc<string, NodeState>): (ls: seq<string>)
    ensures |ls| == |states| && forall i :: 0 <= i < |states| ==> ls[i] == ClassLine(states[i].0, states[i].1)
  {
    seq(|states|, i requires 0 <= i < |states| => ClassLine(states[i].0, states[i].1))
  }

  /** `generateDiagram()`. */
  function GenerateDiagram(v: Visualizer): (r: Result<string, string>)
    ensures v.graphDto.None? ==> r == Success(NoGraphText)
    ensures v.graphDto.Some? ==>
      (r.Success? <==> forall i :: 0 <= i < |v.graphDto.value.nodes| ==> v.graphDto.value.nodes[i] in Keys(v.nodeStates))
    ensures r.Failure? ==> r.error == MissingStateError
    ensures v.graphDto.Some? && r.Success? ==>
      r.value == Concat(["graph TD\n"] + NodeDiagramLines(v.graphDto.value.nodes, v.nodeStates).value
                        + EdgeDiagramLines(v.graphDto.value.edges) + StyleLines + ClassLines(v.nodeStates))
  {
    match v.graphDto
    case None => Success(NoGraphText)
    case Some(dto) =>
      match NodeDiagramLines(dto.nodes, v.nodeStates)
      case Failure(e) => Failure(e)
      case Success(nodeLines) =>
        Success(Concat(["graph TD\n"] + nodeLines + EdgeDiagramLines(dto.edges) + StyleLines + ClassLines(v.nodeStates)))
  }

  /** `updateDiagram()`. */
  function UpdateDiagram(v: Visualizer): (r: Result<Visualizer, string>)
    ensures r.Success? <==> GenerateDiagram(v).Success?
    ensures r.Success? ==> r.value == v.(mermaidText := GenerateDiagram(v).value)
  {
    match GenerateDiagram(v)
    case Failure(e) => Failure(e)
    case Success(t) => Success(v.(mermaidText := t))
  }

  // ---- the node states ----

  /** The states `reset` builds: each descriptor node idle, in first
      occurrence order. */
  function IdleStates(nodes: seq<string>): (m: Assoc<string, NodeState>)
    ensures UniqueKeys(m)
    ensures forall i :: 0 <= i < |m| ==> m[i].0 in nodes && m[i].1 == IdleState
    decreases |nodes|
  {
    if |nodes| == 0 then []
    else
      var init := IdleStates(nodes[..|nodes| - 1]);
      var m := Put(init, nodes[|nodes| - 1], IdleState);
      assert forall i :: 0 <= i < |init| ==> init[i].0 in nodes by {
        forall i | 0 <= i < |init| ensures init[i].0 in nodes {
          var j :| 0 <= j < |nodes| - 1 && nodes[..|nodes| - 1][j] == init[i].0;
          assert nodes[j] == init[i].0;
        }
      }
      m
  }

  /** Every descriptor node gets a state, and nothing else does. */
  lemma {:induction false} IdleStatesKeys(nodes: seq<string>, id: string)
    ensures Get(IdleStates(nodes), id) == if id in nodes then Some(IdleState) else None
    decreases |nodes|
  {
    if |nodes| > 0 {
      var init, last := nodes[..|nodes| - 1], nodes[|nodes| - 1];
      var m := IdleStates(init);
      assert IdleStates(nodes) == Put(m, last, IdleState);
      IdleStatesKeys(init, id);
      PutGet(m, last, IdleState, id);
      if id in nodes {
        var j :| 0 <= j < |nodes| && nodes[j] == id;
        if j < |nodes| - 1 {
          assert init[j] == id;
        }
      }
      if id in init {
        var j :| 0 <= j < |init| && init[j] == id;
        assert nodes[j] == id;
      }
    }
  }

  /** The states hold exactly the descriptor's nodes. */
  ghost predicate Covers(dto: GraphDto, states: Assoc<string, NodeState>) {
    && UniqueKeys(states)
    && (forall i :: 0 <= i < |dto.nodes| ==> dto.nodes[i] in Keys(states))
    && (forall i :: 0 <= i < |states| ==> states[i].0 in dto.nodes)
  }

  /** What every reachable visualizer satisfies: with a descriptor loaded,
      its states hold exactly the descriptor's nodes. */
  ghost predicate Valid(v: Visualizer) {
    v.graphDto.Some? ==> Covers(v.graphDto.value, v.nodeStates)
  }

  /** `reset()`: with a descriptor, every node back to idle and the diagram
      redrawn; without one, nothing. */
  function Reset(v: Visualizer): (r: Result<Visualizer, string>)
    ensures v.graphDto.None? ==> r == Success(v)
    ensures v.graphDto.Some? ==> r.Success? && r.value.graphDto == v.graphDto
    ensures v.graphDto.Some? ==> r.value.nodeStates == IdleStates(v.graphDto.value.nodes) && Valid(r.value)
  {
    match v.graphDto
    case None => Success(v)
    case Some(dto) =>
      var w := v.(nodeStates := IdleStates(dto.nodes));
      assert Covers(dto, w.nodeStates) by {
        forall i | 0 <= i < |dto.nodes| ensures dto.nodes[i] in Keys(w.nodeStates) {
          IdleStatesKeys(dto.nodes, dto.nodes[i]);
        }
      }
      UpdateDiagram(w)
  }

  /** `setGraphStructure(graphDto)`. */
  function SetGraphStructure(v: Visualizer, dto: Option<GraphDto>): (r: Result<Visualizer, string>)
    ensures dto.Some? ==> r.Success? && r.value.graphDto == dto && Valid(r.value)
    ensures dto.Some? ==> forall id :: Get(r.value.nodeStates, id) == if id in dto.value.nodes then Some(IdleState) else None
    ensures dto.None? ==> r == Success(v.(graphDto := None))
  {
    var r := Reset(v.(graphDto := dto));
    assert dto.Some? ==> forall id :: Get(r.value.nodeStates, id) == if id in dto.value.nodes then Some(IdleState) else None by {
      if dto.Some? {
        forall id ensures Get(r.value.nodeStates, id) == if id in dto.value.nodes then Some(IdleState) else None {
          IdleStatesKeys(dto.value.nodes, id);
        }
      }
    }
    r
  }

  /** The state change of one event, before the diagram is redrawn; `None`
      for an unknown event type, which returns early. */
  function NextState(cur: NodeState, e: VisEvent): (r: Option<NodeState>)
    ensures e.kind == "node_start" ==> r == Some(NodeState(Running, DNull))
    ensures e.kind == "node_end" && e.status == Some("success") ==> r == Some(NodeState(Completed, e.duration))
    ensures e.kind == "node_end" && e.status == Some("error") ==> r == Some(NodeState(Failed, e.duration))
    ensures e.kind == "node_end" && e.status != Some("success") && e.status != Some("error") ==> r == Some(cur)
    ensures r.None? <==> e.kind != "node_start" && e.kind != "node_end"
  {
    if e.kind == "node_start" then Some(NodeState(Running, DNull))
    else if e.kind == "node_end" then
      if e.status == Some("success") then Some(NodeState(Completed, e.duration))
      else if e.status == Some("error") then Some(NodeState(Failed, e.duration))
      else Some(cur)
    else None
  }

  /** `handleEvent(event)`: an event for an unknown node, or of an unknown
      type, changes nothing; otherwise the node's state moves and the
      diagram is redrawn. */
  function HandleEvent(v: Visualizer, e: VisEvent): (r: Result<Visualizer, string>)
    ensures Get(v.nodeStates, e.nodeId).None? ==> r == Success(v)
    ensures e.kind != "node_start" && e.kind != "node_end" ==> r == Success(v)
    ensures r.Success? ==> Keys(r.value.nodeStates) == Keys(v.nodeStates) && r.value.graphDto == v.graphDto
    ensures r.Success? ==> forall id :: id != e.nodeId ==> Get(r.value.nodeStates, id) == Get(v.nodeStates, id)
    ensures Valid(v) ==> r.Success? && Valid(r.value)
    ensures Get(v.nodeStates, e.nodeId).Some? && NextState(Get(v.nodeStates, e.nodeId).value, e).Some? && r.Success? ==>
      Get(r.value.nodeStates, e.nodeId) == NextState(Get(v.nodeStates, e.nodeId).value, e)
  {
    match Get(v.nodeStates, e.nodeId)
    case None => Success(v)
    case Some(cur) =>
      match NextState(cur, e)
      case None => Success(v)
      case Some(next) =>
        var w := v.(nodeStates := Put(v.nodeStates, e.nodeId, next));
        assert forall id :: Get(w.nodeStates, id) == if id == e.nodeId then Some(next) else Get(v.nodeStates, id) by {
          forall id ensures Get(w.nodeStates, id) == if id == e.nodeId then Some(next) else Get(v.nodeStates, id) {
            PutGet(v.nodeStates, e.nodeId, next, id);
          }
        }
        assert Valid(v) ==> Valid(w) by {
          if Valid(v) && v.graphDto.Some? {
            var dto := v.graphDto.value;
            forall i | 0 <= i < |w.nodeStates| ensures w.nodeStates[i].0 in dto.nodes {
              assert Keys(w.nodeStates)[i] == Keys(v.nodeStates)[i];
            }
          }
        }
        UpdateDiagram(w)
  }

  // ---- properties across operations ----

  /** With a descriptor loaded the diagram can always be drawn. */
  lemma ValidDiagramRenders(v: Visualizer)
    requires Valid(v)
    ensures GenerateDiagram(v).Success?
  {
  }

  /** The state section has one `class` line per node state, in the
      states' order, and the diagram ends with it. */
  lemma DiagramEndsWithClassLines(v: Visualizer)
    requires v.graphDto.Some? && GenerateDiagram(v).Success?
    ensures exists prefix: string :: GenerateDiagram(v).value == prefix + Concat(ClassLines(v.nodeStates))
  {
    var dto := v.graphDto.value;
    var nodeLines := NodeDiagramLines(dto.nodes, v.nodeStates).value;
    var front := ["graph TD\n"] + nodeLines + EdgeDiagramLines(dto.edges) + StyleLines;
    ConcatAppend(front, ClassLines(v.nodeStates));
  }

  /** A node that started and then succeeded after `n` ms is drawn with its
      duration in its label. */
  lemma CompletedNodeShowsDuration(v: Visualizer, id: string, n: int)
    requires Valid(v) && Get(v.nodeStates, id).Some? && id != START && id != END
    ensures var r1 := HandleEvent(v, VisEvent("node_start", id, DUndefined, None));
      && r1.Success?
      && Get(r1.value.nodeStates, id) == Some(NodeState(Running, DNull))
      && var r2 := HandleEvent(r1.value, VisEvent("node_end", id, DMs(n), Some("success")));
         && r2.Success?
         && Get(r2.value.nodeStates, id) == Some(NodeState(Completed, DMs(n)))
         && NodeDiagramLine(id, Get(r2.value.nodeStates, id).value) == "  " + id + "[" + id + "<br/>" + IntToString(n) + "ms]\n"
  {
    var e1 := VisEvent("node_start", id, DUndefined, None);
    var r1 := HandleEvent(v, e1);
    assert NextState(Get(v.nodeStates, id).value, e1) == Some(NodeState(Running, DNull));
    var e2 := VisEvent("node_end", id, DMs(n), Some("success"));
    assert NextState(Get(r1.value.nodeStates, id).value, e2) == Some(NodeState(Completed, DMs(n)));
    CompletedLine(id, n);
  }

  /** The diagram line of a completed node other than the two ends. */
  lemma CompletedLine(id: string, n: int)
    requires id != START && id != END
    ensures NodeDiagramLine(id, NodeState(Completed, DMs(n))) == "  " + id + "[" + id + "<br/>" + IntToString(n) + "ms]\n"
  {
    assert Label(id, NodeState(Completed, DMs(n))) == id + "<br/>" + IntToString(n) + "ms";
  }

  /** A `node_end` without a `status` leaves a running node running (it is
      still redrawn); with the status `error` the node is drawn as failed. */
  lemma EndWithoutStatusKeepsRunning(v: Visualizer, id: string, d: Duration)
    requires Valid(v) && Get(v.nodeStates, id) == Some(NodeState(Running, DNull))
    ensures var r := HandleEvent(v, VisEvent("node_end", id, d, None));
      r.Success? && Get(r.value.nodeStates, id) == Some(NodeState(Running, DNull))
    ensures var r := HandleEvent(v, VisEvent("node_end", id, d, Some("error")));
      r.Success? && Get(r.value.nodeStates, id) == Some(NodeState(Failed, d))
  {
  }
}
