/** `EventEmittingStateGraph`: a workflow-graph builder whose node functions
    are instrumented, whose conditional edges carry a validated outcome list,
    and which exports its compiled shape both as a descriptor (`toGraphDto`)
    and as Mermaid text (`generateMermaidGraph`).

    The LangGraph base class is not part of this model. Its state appears as
    three plain fields: the declared nodes in insertion order, the plain
    edges in insertion order, and the `compiled` flag. */
module EventGraph {
  import opened Wrappers
  import opened Text
  import opened OrderedMap
  import opened Values
  import opened NodeWrapper

  const START: string := "__start__"
  const END: string := "__end__"

  datatype NodeEntry = NodeEntry(id: string, fn: NodeFn, metadata: Option<Json>)

  datatype Graph = Graph(
    nodes: seq<NodeEntry>,
    allEdges: seq<(string, string)>,
    conditionalEdged: Assoc<string, seq<string>>,
    compiled: bool)

  /** A freshly constructed graph. */
  function Empty(): Graph {
    Graph([], [], [], false)
  }

  // ---- base-class operations (stand-ins for the library) ----

  /** The base `addNode`: records the node after the ones already declared. */
  function BaseAddNode(g: Graph, id: string, fn: NodeFn, metadata: Option<Json>): Graph {
    g.(nodes := g.nodes + [NodeEntry(id, fn, metadata)])
  }

  /** The base `addEdge`. */
  function AddEdge(g: Graph, from: string, to: string): Graph {
    g.(allEdges := g.allEdges + [(from, to)])
  }

  /** The base `compile`. */
  function Compile(g: Graph): Graph {
    g.(compiled := true)
  }

  // ---- node registration ----

  /** Every declared node holds the wrapper built for its own id. */
  predicate Instrumented(g: Graph) {
    forall i :: 0 <= i < |g.nodes| ==> g.nodes[i].fn.Wrapped? && g.nodes[i].fn.nodeId == g.nodes[i].id
  }

  /** `addNode(nodeId, fn[, metadata])`: the wrapper, not `fn`, reaches the
      base class; `metadata` is passed on only when supplied. */
  function AddNode(g: Graph, nodeId: string, fn: NodeFn, metadata: Option<Json>): (r: Graph)
    ensures |r.nodes| == |g.nodes| + 1 && r.nodes[..|g.nodes|] == g.nodes
    ensures r.nodes[|g.nodes|].id == nodeId && r.nodes[|g.nodes|].metadata == metadata
    ensures r.nodes[|g.nodes|].fn == Wrapped(nodeId, fn)
    ensures r.allEdges == g.allEdges && r.conditionalEdged == g.conditionalEdged && r.compiled == g.compiled
  {
    BaseAddNode(g, nodeId, Wrap(nodeId, fn), metadata)
  }

  /** `addNode({id1: fn1, ...})`: every entry is wrapped, in `Object.entries`
      order, and handed to the base class as one map (without metadata). */
  function AddNodes(g: Graph, nodeMap: seq<(string, NodeFn)>): (r: Graph)
    ensures |r.nodes| == |g.nodes| + |nodeMap| && r.nodes[..|g.nodes|] == g.nodes
    ensures forall i :: 0 <= i < |nodeMap| ==>
      r.nodes[|g.nodes| + i] == NodeEntry(nodeMap[i].0, Wrapped(nodeMap[i].0, nodeMap[i].1), None)
    ensures r.allEdges == g.allEdges && r.conditionalEdged == g.conditionalEdged && r.compiled == g.compiled
  {
    var wrapped := seq(|nodeMap|, i requires 0 <= i < |nodeMap| =>
                         NodeEntry(nodeMap[i].0, Wrap(nodeMap[i].0, nodeMap[i].1), None));
    g.(nodes := g.nodes + wrapped)
  }

  // ---- conditional edges ----

  const MissingOutcomesMessage: string :=
    "addConditionalEdges requires a third parameter: outcomes array of valid target nodes"

  function InvalidPathMapMessage(key: string, value: string, outcomes: seq<string>): string {
    "Invalid pathMap: '" + key + "' maps to '" + value + "' which is not in outcomes ["
    + Join(outcomes, ", ") + "]"
  }

  /** The first `pathMap` entry whose target is not a declared outcome. */
  function FirstStray(pathMap: Assoc<string, string>, outcomes: seq<string>): (r: Option<nat>)
    ensures r.None? <==> forall i :: 0 <= i < |pathMap| ==> pathMap[i].1 in outcomes
    ensures r.Some? ==> r.value < |pathMap| && pathMap[r.value].1 !in outcomes
    ensures r.Some? ==> forall i :: 0 <= i < r.value ==> pathMap[i].1 in outcomes
  {
    if |pathMap| == 0 then None
    else if pathMap[0].1 !in outcomes then Some(0)
    else
      match FirstStray(pathMap[1..], outcomes)
      case None => None
      case Some(i) => Some(i + 1)
  }

  /** `addConditionalEdges(source, condition, outcomes, pathMap?)`. A missing
      `outcomes` array and a `pathMap` target outside `outcomes` both throw
      before anything is recorded; otherwise `outcomes` is recorded for
      `source`, replacing an earlier registration in place. */
  function AddConditionalEdges(g: Graph, source: string, outcomes: Option<seq<string>>,
                               pathMap: Option<Assoc<string, string>>): (r: Result<Graph, string>)
    ensures outcomes.None? ==> r == Failure(MissingOutcomesMessage)
    ensures r.Success? <==> (outcomes.Some? &&
      (pathMap.None? || forall i :: 0 <= i < |pathMap.value| ==> pathMap.value[i].1 in outcomes.value))
    ensures outcomes.Some? && pathMap.Some? && r.Failure? ==>
      (exists i :: 0 <= i < |pathMap.value| && pathMap.value[i].1 !in outcomes.value
        && r.error == InvalidPathMapMessage(pathMap.value[i].0, pathMap.value[i].1, outcomes.value))
    ensures r.Success? ==> Get(r.value.conditionalEdged, source) == Some(outcomes.value)
    ensures r.Success? ==> forall s :: s != source ==> Get(r.value.conditionalEdged, s) == Get(g.conditionalEdged, s)
    ensures r.Success? ==> r.value.nodes == g.nodes && r.value.allEdges == g.allEdges && r.value.compiled == g.compiled
  {
    if outcomes.None? then Failure(MissingOutcomesMessage)
    else
      var stray := if pathMap.Some? then FirstStray(pathMap.value, outcomes.value) else None;
      if stray.Some? then
        var kv := pathMap.value[stray.value];
        Failure(InvalidPathMapMessage(kv.0, kv.1, outcomes.value))
      else
        var cs := Put(g.conditionalEdged, source, outcomes.value);
        assert forall s :: Get(cs, s) == if s == source then Some(outcomes.value) else Get(g.conditionalEdged, s) by {
          forall s { PutGet(g.conditionalEdged, source, outcomes.value, s); }
        }
        Success(g.(conditionalEdged := cs))
  }

  /** Registering twice for one source keeps the second outcome list, at the
      position the first registration took. */
  lemma ConditionalLastWriteWins(g: Graph, source: string, first: seq<string>, second: seq<string>)
    requires AddConditionalEdges(g, source, Some(first), None).Success?
    ensures var g1 := AddConditionalEdges(g, source, Some(first), None).value;
            var g2 := AddConditionalEdges(g1, source, Some(second), None);
            && g2.Success?
            && Get(g2.value.conditionalEdged, source) == Some(second)
            && Keys(g2.value.conditionalEdged) == Keys(g1.conditionalEdged)
  {
    var g1 := AddConditionalEdges(g, source, Some(first), None).value;
    assert source in Keys(g1.conditionalEdged);
  }

  // ---- the structural descriptor ----

  datatype EdgeDto = EdgeDto(from: string, to: string, isConditional: bool)
  datatype GraphDto = GraphDto(nodes: seq<string>, edges: seq<EdgeDto>)

  const NotCompiledError: string := "Graph must be compiled before building structure"

  function NodeIds(ns: seq<NodeEntry>): (ids: seq<string>)
    ensures |ids| == |ns| && forall i :: 0 <= i < |ns| ==> ids[i] == ns[i].id
  {
    seq(|ns|, i requires 0 <= i < |ns| => ns[i].id)
  }

  function PlainEdges(es: seq<(string, string)>): (r: seq<EdgeDto>)
    ensures |r| == |es| && forall i :: 0 <= i < |es| ==> r[i] == EdgeDto(es[i].0, es[i].1, false)
  {
    seq(|es|, i requires 0 <= i < |es| => EdgeDto(es[i].0, es[i].1, false))
  }

  function OutcomeEdges(source: string, outcomes: seq<string>): (r: seq<EdgeDto>)
    ensures |r| == |outcomes| && forall i :: 0 <= i < |outcomes| ==> r[i] == EdgeDto(source, outcomes[i], true)
  {
    seq(|outcomes|, i requires 0 <= i < |outcomes| => EdgeDto(source, outcomes[i], true))
  }

  /** Number of declared outcomes over all conditional registrations. */
  function TotalOutcomes(cs: Assoc<string, seq<string>>): nat {
    if |cs| == 0 then 0 else |cs[0].1| + TotalOutcomes(cs[1..])
  }

  /** One conditional edge per (source, outcome) pair, in registration order. */
  function ConditionalEdges(cs: Assoc<string, seq<string>>): (r: seq<EdgeDto>)
    ensures |r| == TotalOutcomes(cs)
    ensures forall i :: 0 <= i < |r| ==> r[i].isConditional
  {
    if |cs| == 0 then [] else OutcomeEdges(cs[0].0, cs[0].1) + ConditionalEdges(cs[1..])
  }

  /** A conditional edge is listed exactly when its target is among the
      outcomes registered for its source. */
  lemma {:induction false} ConditionalEdgeListed(cs: Assoc<string, seq<string>>, from: string, to: string)
    ensures EdgeDto(from, to, true) in ConditionalEdges(cs)
            <==> exists j :: 0 <= j < |cs| && cs[j].0 == from && to in cs[j].1
  {
    if |cs| > 0 {
      ConditionalEdgeListed(cs[1..], from, to);
      var head := OutcomeEdges(cs[0].0, cs[0].1);
      assert EdgeDto(from, to, true) in head <==> cs[0].0 == from && to in cs[0].1 by {
        if cs[0].0 == from && to in cs[0].1 {
          var k :| 0 <= k < |cs[0].1| && cs[0].1[k] == to;
          assert head[k] == EdgeDto(from, to, true);
        }
      }
      if exists j :: 0 <= j < |cs[1..]| && cs[1..][j].0 == from && to in cs[1..][j].1 {
        var j :| 0 <= j < |cs[1..]| && cs[1..][j].0 == from && to in cs[1..][j].1;
        assert cs[j + 1] == cs[1..][j];
      }
      if exists j :: 0 <= j < |cs| && cs[j].0 == from && to in cs[j].1 {
        var j :| 0 <= j < |cs| && cs[j].0 == from && to in cs[j].1;
        if j > 0 {
          assert cs[1..][j - 1] == cs[j];
        }
      }
    }
  }

  /** `toGraphDto()`: throws unless compiled; otherwise the sentinels, the
      declared nodes in order, the plain edges in order, then one
      conditional edge per declared outcome. */
  function ToGraphDto(g: Graph): (r: Result<GraphDto, string>)
    ensures r.Failure? <==> !g.compiled
    ensures r.Failure? ==> r.error == NotCompiledError
    ensures r.Success? ==> r.value.nodes == [START, END] + NodeIds(g.nodes)
    ensures r.Success? ==> |r.value.edges| == |g.allEdges| + TotalOutcomes(g.conditionalEdged)
    ensures r.Success? ==> forall i :: 0 <= i < |g.allEdges| ==>
      r.value.edges[i] == EdgeDto(g.allEdges[i].0, g.allEdges[i].1, false)
    ensures r.Success? ==> forall i :: |g.allEdges| <= i < |r.value.edges| ==> r.value.edges[i].isConditional
    ensures r.Success? ==> r.value.edges[|g.allEdges|..] == ConditionalEdges(g.conditionalEdged)
  {
    if !g.compiled then Failure(NotCompiledError)
    else Success(GraphDto([START, END] + NodeIds(g.nodes),
                          PlainEdges(g.allEdges) + ConditionalEdges(g.conditionalEdged)))
  }

  // ---- the Mermaid export ----

  const NotCompiledText: string := "Graph cannot be visualized as it is not compiled"
  const MermaidHeader: string := "graph TD\n"
  const StartLine: string := "__start__((start))\n"
  const EndLine: string := "__end__((end))\n"

  function NodeLine(id: string): string { id + "[" + id + "]\n" }
  function PlainLine(from: string, to: string): string { from + " --> " + to + "\n" }
  function ConditionalLine(from: string, to: string): string { from + " --> |conditional| " + to + "\n" }

  function NodeLines(ns: seq<NodeEntry>): seq<string> {
    seq(|ns|, i requires 0 <= i < |ns| => NodeLine(ns[i].id))
  }

  function PlainLines(es: seq<(string, string)>): seq<string> {
    seq(|es|, i requires 0 <= i < |es| => PlainLine(es[i].0, es[i].1))
  }

  function ConditionalLines(cs: Assoc<string, seq<string>>): seq<string> {
    if |cs| == 0 then []
    else seq(|cs[0].1|, i requires 0 <= i < |cs[0].1| => ConditionalLine(cs[0].0, cs[0].1[i]))
         + ConditionalLines(cs[1..])
  }

  /** The lines `generateMermaidGraph` appends, in order. */
  function MermaidLines(g: Graph): seq<string> {
    [MermaidHeader, StartLine, EndLine] + NodeLines(g.nodes) + PlainLines(g.allEdges)
    + ConditionalLines(g.conditionalEdged)
  }

  /** `generateMermaidGraph()`: the fixed notice unless compiled, otherwise
      exactly the text read off the graph's own descriptor. */
  function GenerateMermaidGraph(g: Graph): (r: string)
    ensures !g.compiled ==> r == NotCompiledText
    ensures g.compiled ==> r == Concat(DtoLines(ToGraphDto(g).value))
  {
    if !g.compiled then NotCompiledText
    else
      MermaidLinesMatchDto(g);
      Concat(MermaidLines(g))
  }

  // ---- the Mermaid text read off a descriptor ----

  /** The line for the `i`-th descriptor node: the first two are the sentinels. */
  function DtoNodeLine(i: nat, id: string): string {
    if i == 0 then StartLine else if i == 1 then EndLine else NodeLine(id)
  }

  function EdgeLine(e: EdgeDto): string {
    if e.isConditional then ConditionalLine(e.from, e.to) else PlainLine(e.from, e.to)
  }

  function EdgeLines(es: seq<EdgeDto>): (r: seq<string>)
    ensures |r| == |es| && forall i :: 0 <= i < |es| ==> r[i] == EdgeLine(es[i])
  {
    seq(|es|, i requires 0 <= i < |es| => EdgeLine(es[i]))
  }

  /** The Mermaid lines a descriptor determines: header, one line per node,
      one line per edge, in descriptor order. */
  function DtoLines(dto: GraphDto): seq<string> {
    [MermaidHeader]
    + seq(|dto.nodes|, i requires 0 <= i < |dto.nodes| => DtoNodeLine(i, dto.nodes[i]))
    + EdgeLines(dto.edges)
  }

  lemma {:induction false} ConditionalLinesMatch(cs: Assoc<string, seq<string>>)
    ensures ConditionalLines(cs) == EdgeLines(ConditionalEdges(cs))
  {
    if |cs| > 0 {
      ConditionalLinesMatch(cs[1..]);
      var head := OutcomeEdges(cs[0].0, cs[0].1);
      var tail := ConditionalEdges(cs[1..]);
      assert EdgeLines(head + tail) == EdgeLines(head) + EdgeLines(tail);
    }
  }

  /** When compiled, the lines the Mermaid export appends are exactly the
      lines read off the descriptor, in descriptor order. */
  lemma MermaidLinesMatchDto(g: Graph)
    requires g.compiled
    ensures MermaidLines(g) == DtoLines(ToGraphDto(g).value)
  {
    var dto := ToGraphDto(g).value;
    var plain := PlainEdges(g.allEdges);
    var cond := ConditionalEdges(g.conditionalEdged);
    ConditionalLinesMatch(g.conditionalEdged);
    assert EdgeLines(plain + cond) == EdgeLines(plain) + EdgeLines(cond);
    assert EdgeLines(plain) == PlainLines(g.allEdges);
    var nodeLines := seq(|dto.nodes|, i requires 0 <= i < |dto.nodes| => DtoNodeLine(i, dto.nodes[i]));
    assert nodeLines == [StartLine, EndLine] + NodeLines(g.nodes);
  }

  /** The two exports agree: when compiled, the Mermaid text is exactly the
      text read off the descriptor; when not compiled, the descriptor throws
      and the text is the fixed notice. */
  lemma MermaidAgreesWithDto(g: Graph)
    ensures !g.compiled <==> ToGraphDto(g).Failure?
    ensures !g.compiled ==> GenerateMermaidGraph(g) == NotCompiledText
    ensures g.compiled ==> MermaidLines(g) == DtoLines(ToGraphDto(g).value)
    ensures g.compiled ==> GenerateMermaidGraph(g) == Concat(DtoLines(ToGraphDto(g).value))
  {
    if g.compiled {
      MermaidLinesMatchDto(g);
    }
  }

  // ---- building a graph from a script of registrations ----

  datatype BuildOp =
    | AddNodeOp(id: string, fn: NodeFn, metadata: Option<Json>)
    | AddNodesOp(nodeMap: seq<(string, NodeFn)>)
    | AddEdgeOp(from: string, to: string)
    | AddConditionalEdgesOp(source: string, outcomes: Option<seq<string>>, pathMap: Option<Assoc<string, string>>)
    | CompileOp

  function Apply(g: Graph, op: BuildOp): Result<Graph, string> {
    match op
    case AddNodeOp(id, fn, md) => Success(AddNode(g, id, fn, md))
    case AddNodesOp(nm) => Success(AddNodes(g, nm))
    case AddEdgeOp(f, t) => Success(AddEdge(g, f, t))
    case AddConditionalEdgesOp(s, o, p) => AddConditionalEdges(g, s, o, p)
    case CompileOp => Success(Compile(g))
  }

  /** Runs a chain of registrations; the first one that throws ends it. */
  function BuildFrom(g: Graph, ops: seq<BuildOp>): Result<Graph, string>
    decreases |ops|
  {
    if |ops| == 0 then Success(g)
    else match Apply(g, ops[0])
      case Failure(e) => Failure(e)
      case Success(g') => BuildFrom(g', ops[1..])
  }

  /** Whatever registrations a graph goes through, every node it declares is
      the instrumented wrapper for that node. */
  lemma {:induction false} BuildKeepsInstrumented(g: Graph, ops: seq<BuildOp>)
    requires Instrumented(g)
    ensures BuildFrom(g, ops).Success? ==> Instrumented(BuildFrom(g, ops).value)
    decreases |ops|
  {
    if |ops| > 0 {
      var r := Apply(g, ops[0]);
      if r.Success? {
        assert Instrumented(r.value) by {
          match ops[0]
          case AddNodesOp(nm) =>
            forall i | 0 <= i < |r.value.nodes|
              ensures r.value.nodes[i].fn.Wrapped? && r.value.nodes[i].fn.nodeId == r.value.nodes[i].id
            {
              if i < |g.nodes| {
                assert r.value.nodes[i] == r.value.nodes[..|g.nodes|][i];
              } else {
                assert r.value.nodes[i] == r.value.nodes[|g.nodes| + (i - |g.nodes|)];
              }
            }
          case AddNodeOp(id, fn, md) =>
            forall i | 0 <= i < |r.value.nodes|
              ensures r.value.nodes[i].fn.Wrapped? && r.value.nodes[i].fn.nodeId == r.value.nodes[i].id
            {
              if i < |g.nodes| {
                assert r.value.nodes[i] == r.value.nodes[..|g.nodes|][i];
              }
            }
          case _ =>
        }
        BuildKeepsInstrumented(r.value, ops[1..]);
      }
    }
  }

  /** The registrations of the second demo workflow. */
  function DemoOps(): seq<BuildOp> {
    [ AddNodeOp("first", Opaque("first"), None),
      AddNodeOp("second", Opaque("second"), None),
      AddNodeOp("third", Opaque("third"), None),
      AddNodeOp("forth", Opaque("forth"), None),
      AddEdgeOp(START, "first"),
      AddEdgeOp("first", "second"),
      AddConditionalEdgesOp("second", Some(["third", "forth"]), None),
      AddEdgeOp("third", END),
      AddEdgeOp("forth", END),
      CompileOp ]
  }

  /** The graph the demo registrations produce. */
  function DemoGraph(): Graph {
    Graph([ NodeEntry("first", Wrapped("first", Opaque("first")), None),
            NodeEntry("second", Wrapped("second", Opaque("second")), None),
            NodeEntry("third", Wrapped("third", Opaque("third")), None),
            NodeEntry("forth", Wrapped("forth", Opaque("forth")), None) ],
          [(START, "first"), ("first", "second"), ("third", END), ("forth", END)],
          [("second", ["third", "forth"])],
          true)
  }

  lemma DemoBuild(ops: seq<BuildOp>)
    requires ops == DemoOps()
    ensures BuildFrom(Empty(), ops) == Success(DemoGraph())
  {
    var gs := seq(11, k requires 0 <= k < 11 => DemoStage(k));
    forall k | 0 <= k < |ops|
      ensures Apply(gs[k], ops[k]) == Success(gs[k + 1])
    {
      DemoStep(k);
    }
    assert gs[0] == Empty();
    BuildChain(gs, ops);
    assert gs[10] == DemoGraph() by {
      var d := DemoGraph();
      assert d.nodes[..4] == d.nodes && d.allEdges[..4] == d.allEdges;
    }
  }

  /** How many plain edges the demo has declared after `k` registrations. */
  function DemoEdgesAt(k: nat): nat {
    if k <= 4 then 0 else if k <= 6 then k - 4 else if k <= 9 then k - 5 else 4
  }

  /** The graph after the first `k` demo registrations. */
  function DemoStage(k: nat): Graph
    requires k <= 10
  {
    var d := DemoGraph();
    Graph(d.nodes[..if k < 4 then k else 4], d.allEdges[..DemoEdgesAt(k)],
          if k <= 6 then [] else d.conditionalEdged, k == 10)
  }

  lemma SliceStep<T>(s: seq<T>, k: nat)
    requires k < |s|
    ensures s[..k] + [s[k]] == s[..k + 1]
  {
  }

  /** Each demo registration takes one stage to the next. */
  lemma DemoStep(k: nat)
    requires k < 10
    ensures Apply(DemoStage(k), DemoOps()[k]) == Success(DemoStage(k + 1))
  {
    if k < 4 {
      DemoNodeStep(k);
    } else if k == 6 {
      DemoBranchStep();
    } else if k == 9 {
      DemoCompileStep();
    } else {
      DemoEdgeStep(k);
    }
  }

  lemma DemoBranchStep()
    ensures Apply(DemoStage(6), DemoOps()[6]) == Success(DemoStage(7))
  {
    var g := DemoStage(6);
    var outcomes := ["third", "forth"];
    var op := AddConditionalEdgesOp("second", Some(outcomes), None);
    assert DemoOps()[6] == op;
    FirstBranch(g, "second", outcomes);
    assert g.(conditionalEdged := [("second", outcomes)]) == DemoStage(7);
  }

  lemma DemoCompileStep()
    ensures Apply(DemoStage(9), DemoOps()[9]) == Success(DemoStage(10))
  {
    assert DemoOps()[9] == CompileOp;
  }

  lemma DemoNodeStep(k: nat)
    requires k < 4
    ensures Apply(DemoStage(k), DemoOps()[k]) == Success(DemoStage(k + 1))
  {
    var d := DemoGraph();
    var id := d.nodes[k].id;
    assert DemoOps()[k] == AddNodeOp(id, Opaque(id), None);
    assert d.nodes[k] == NodeEntry(id, Wrapped(id, Opaque(id)), None);
    SliceStep(d.nodes, k);
  }

  lemma DemoEdgeStep(k: nat)
    requires k == 4 || k == 5 || k == 7 || k == 8
    ensures Apply(DemoStage(k), DemoOps()[k]) == Success(DemoStage(k + 1))
  {
    var d := DemoGraph();
    var n := DemoEdgesAt(k);
    assert DemoOps()[k] == AddEdgeOp(d.allEdges[n].0, d.allEdges[n].1);
    SliceStep(d.allEdges, n);
  }

  /** The first branching registration of a graph, without a `pathMap`,
      records the outcome list as the only branch. */
  lemma FirstBranch(g: Graph, source: string, outcomes: seq<string>)
    requires g.conditionalEdged == []
    ensures Apply(g, AddConditionalEdgesOp(source, Some(outcomes), None))
            == Success(g.(conditionalEdged := [(source, outcomes)]))
  {
    var r := AddConditionalEdges(g, source, Some(outcomes), None);
    assert r.Success?;
    assert r.value.conditionalEdged == Put(g.conditionalEdged, source, outcomes);
    assert Keys(g.conditionalEdged) == [];
    assert Put(g.conditionalEdged, source, outcomes) == [] + [(source, outcomes)];
    assert r.value == g.(conditionalEdged := [(source, outcomes)]);
  }

  /** Registrations that each succeed, going through the graphs `gs` in turn,
      build the last of them. */
  lemma {:induction false} BuildChain(gs: seq<Graph>, ops: seq<BuildOp>)
    requires |gs| == |ops| + 1
    requires forall k :: 0 <= k < |ops| ==> Apply(gs[k], ops[k]) == Success(gs[k + 1])
    ensures BuildFrom(gs[0], ops) == Success(gs[|ops|])
    decreases |ops|
  {
    if |ops| > 0 {
      assert Apply(gs[0], ops[0]) == Success(gs[1]);
      BuildChain(gs[1..], ops[1..]);
    }
  }

  /** The demo workflow's descriptor: six nodes, four plain edges in
      declaration order, then the two conditional edges out of `second`. */
  lemma DemoDescriptor(ops: seq<BuildOp>)
    requires ops == DemoOps()
    ensures BuildFrom(Empty(), ops).Success?
    ensures ToGraphDto(BuildFrom(Empty(), ops).value) == Success(GraphDto(
      [START, END, "first", "second", "third", "forth"],
      [ EdgeDto(START, "first", false), EdgeDto("first", "second", false),
        EdgeDto("third", END, false), EdgeDto("forth", END, false),
        EdgeDto("second", "third", true), EdgeDto("second", "forth", true) ]))
  {
    DemoBuild(ops);
    var g := DemoGraph();
    assert NodeIds(g.nodes) == ["first", "second", "third", "forth"];
    assert PlainEdges(g.allEdges) == [ EdgeDto(START, "first", false), EdgeDto("first", "second", false),
        EdgeDto("third", END, false), EdgeDto("forth", END, false) ];
    assert g.conditionalEdged[1..] == [];
    assert ConditionalEdges(g.conditionalEdged)
           == [EdgeDto("second", "third", true), EdgeDto("second", "forth", true)];
    assert [START, END] + NodeIds(g.nodes) == [START, END, "first", "second", "third", "forth"];
    assert PlainEdges(g.allEdges) + ConditionalEdges(g.conditionalEdged) == [ EdgeDto(START, "first", false),
        EdgeDto("first", "second", false), EdgeDto("third", END, false), EdgeDto("forth", END, false),
        EdgeDto("second", "third", true), EdgeDto("second", "forth", true) ];
  }

  /** A `pathMap` naming a target outside the outcomes is rejected with the
      message naming the offending key, value and the outcome list, the
      outcomes joined by a comma and a space. */
  lemma StrayPathMapRejected(g: Graph)
    ensures AddConditionalEdges(g, "second", Some(["third", "forth"]), Some([("odd", "fifth")]))
            == Failure(InvalidPathMapMessage("odd", "fifth", ["third", "forth"]))
    ensures Join(["third", "forth"], ", ") == "third, forth"
  {
    assert "fifth" != "third" && "fifth" != "forth";
    assert FirstStray([("odd", "fifth")], ["third", "forth"]) == Some(0);
    assert ["third", "forth"][1..] == ["forth"];
  }
}
