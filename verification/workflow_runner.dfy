/** `WorkflowRunner`: runs one workflow for one socket and relays to it the
    node events of the graph it imports as `workflowGraph`.

    `run` is asynchronous. Its synchronous prefix (the `isRunning` test, the
    flag and the listener registration) is `Begin`; what the workflow's
    promise settles to is `Finish`; in between, every node event that graph
    emits reaches every listener this runner ever registered (`Relay`).
    The CV workflow module builds a plain `StateGraph` and exports no
    `workflowGraph`, so no modelled workflow produces these events: they
    are an input. The socket's `readyState` is an input too: `open`. */
module Runner {
  import opened Wrappers
  import opened Values
  import opened NodeWrapper
  import opened Protocol

  /** The runner's state: the `isRunning` flag and how many `node_start`
      and `node_end` listeners it has put on the shared graph (they are
      never removed). */
  datatype Runner = Runner(isRunning: bool, startListeners: nat, endListeners: nat)

  function NewRunner(): Runner {
    Runner(false, 0, 0)
  }

  const AlreadyRunningMessage: string := "Workflow is already running"

  /** `sendMessage(message)`: sent when the socket is open, dropped otherwise. */
  function Send(open: bool, m: Message): (out: seq<Message>)
    ensures open <==> out == [m]
    ensures !open <==> out == []
  {
    if open then [m] else []
  }

  /** What the workflow's promise settled to: a result (absent when it was
      `undefined`), or a thrown value. */
  datatype RunOutcome = Resolved(result: Option<Json>) | Threw(error: Thrown)

  /** The message the runner sends when the promise settles. */
  function FinalMessage(o: RunOutcome): (m: Message)
    ensures o.Resolved? ==> m == Message("result", o.result)
    ensures o.Threw? ==> m == ErrorMessage(Describe(o.error))
  {
    match o
    case Resolved(res) => Message("result", res)
    case Threw(e) => ErrorMessage(Describe(e))
  }

  /** The payload fields a relayed event may carry. */
  const RelayFields: set<string> := {"nodeId", "type", "timestamp", "duration", "status", "error"}

  /** The start listener's payload: `{nodeId, type, timestamp}`. */
  function StartPayload(e: NodeEvent): (fields: map<string, Json>)
    requires e.NodeStart?
    ensures fields.Keys == {"nodeId", "type", "timestamp"}
    ensures fields["nodeId"] == JStr(e.nodeId) && fields["type"] == JStr("node_start")
    ensures fields["timestamp"] == JNum(e.timestamp as real)
  {
    map["nodeId" := JStr(e.nodeId), "type" := JStr("node_start"), "timestamp" := JNum(e.timestamp as real)]
  }

  /** The fields of the end listener's payload that are read correctly:
      `status` is dropped by `JSON.stringify` when the event has none. */
  function EndBase(e: NodeEvent): map<string, Json>
    requires e.NodeEnd?
  {
    var base := map["nodeId" := JStr(e.nodeId), "type" := JStr("node_end"),
                    "timestamp" := JNum(e.timestamp as real), "duration" := JNum(e.duration as real)];
    match e.status
    case None => base
    case Some(s) => base["status" := JStr(StatusText(s))]
  }

  /** The end listener's payload as written: it reads `event.error`, a
      property no `node_end` event has (the message is at
      `event.data.error`), so the `error` field is always dropped. */
  function EndPayloadAsWritten(e: NodeEvent): (fields: map<string, Json>)
    requires e.NodeEnd?
    ensures fields.Keys <= RelayFields
    ensures "error" !in fields
    ensures {"nodeId", "type", "timestamp", "duration"} <= fields.Keys
    ensures fields["nodeId"] == JStr(e.nodeId) && fields["type"] == JStr("node_end")
    ensures fields["timestamp"] == JNum(e.timestamp as real) && fields["duration"] == JNum(e.duration as real)
    ensures ("status" in fields) <==> e.status.Some?
    ensures e.status.Some? ==> fields["status"] == JStr(StatusText(e.status.value))
  {
    EndBase(e)
  }

  /** A failure as the wrapper writes it, relayed as the runner writes it,
      reaches the socket without the node's error message. */
  lemma RelayedErrorIsLost(nodeId: string, state: State, config: Option<RunConfig>,
                           startTime: int, endTime: int, e: Thrown)
    ensures var ev := InvokeAsWritten(nodeId, state, config, startTime, endTime, Raised(e)).events[1];
      "error" !in EndPayloadAsWritten(ev)
  {
  }

  /** The end listener's payload reading the message where the wrapper puts
      it: the corrected relay, `RelayMessage(Corrected, …)`. */
  function EndPayload(e: NodeEvent): (fields: map<string, Json>)
    requires e.NodeEnd?
    ensures fields.Keys <= RelayFields
    ensures {"nodeId", "type", "timestamp", "duration"} <= fields.Keys
    ensures fields["nodeId"] == JStr(e.nodeId) && fields["type"] == JStr("node_end")
    ensures ("status" in fields) == e.status.Some?
    ensures ("error" in fields) == e.data.ErrorData?
    ensures e.data.ErrorData? ==> fields["error"] == JStr(e.data.error)
    ensures forall k :: k in fields && k != "error" ==> k in EndPayloadAsWritten(e) && fields[k] == EndPayloadAsWritten(e)[k]
  {
    match e.data
    case AfterState(_) => EndBase(e)
    case ErrorData(msg) => EndBase(e)["error" := JStr(msg)]
  }

  /** A failed node's relayed `node_end` names the node, says `error` and
      carries the thrown value's message. */
  lemma RelayedErrorCarriesMessage(nodeId: string, state: State, config: Option<RunConfig>,
                                   startTime: int, endTime: int, e: Thrown)
    ensures var ev := Invoke(nodeId, state, config, startTime, endTime, Raised(e)).events[1];
      && EndPayload(ev)["error"] == JStr(Describe(e))
      && EndPayload(ev)["status"] == JStr("error")
  {
  }

  /** The message one listener sends for one event. As written, the end
      payload never has an `error` field; corrected, it carries the
      message of a failed node. */
  function RelayMessage(v: Version, e: NodeEvent): (m: Message)
    ensures e.NodeStart? ==> m.kind == "node_start"
    ensures e.NodeEnd? ==> m.kind == "node_end"
    ensures m.data.Some? && m.data.value.JObj? && m.data.value.fields.Keys <= RelayFields
    ensures e.NodeEnd? && v == AsWritten ==> "error" !in m.data.value.fields
    ensures e.NodeEnd? && v == Corrected ==> ("error" in m.data.value.fields <==> e.data.ErrorData?)
  {
    match e
    case NodeStart(_, _, _, _) => Message("node_start", Some(JObj(StartPayload(e))))
    case NodeEnd(_, _, _, _, _, _) =>
      Message("node_end", Some(JObj(if v == AsWritten then EndPayloadAsWritten(e) else EndPayload(e))))
  }

  /** `k` copies of a message list. */
  function Repeat(k: nat, ms: seq<Message>): (out: seq<Message>)
    ensures |out| == k * |ms|
  {
    if k == 0 then [] else ms + Repeat(k - 1, ms)
  }

  /** The messages this runner's listeners send for one event the graph
      emits: every listener of the event's kind relays it, whatever session
      it belongs to. */
  function Relay(v: Version, r: Runner, open: bool, e: NodeEvent): (out: seq<Message>)
    ensures |out| == (if open then (if e.NodeStart? then r.startListeners else r.endListeners) else 0)
  {
    Repeat(if e.NodeStart? then r.startListeners else r.endListeners, Send(open, RelayMessage(v, e)))
  }

  function RelayAll(v: Version, r: Runner, open: bool, es: seq<NodeEvent>): seq<Message> {
    if |es| == 0 then [] else Relay(v, r, open, es[0]) + RelayAll(v, r, open, es[1..])
  }

  /** The synchronous part of `run`: a call while running sends one error;
      otherwise the flag is raised and one listener of each kind added. */
  function Begin(r: Runner, open: bool): (res: (Runner, seq<Message>))
    ensures r.isRunning ==> res.0 == r && res.1 == Send(open, ErrorMessage(AlreadyRunningMessage))
    ensures !r.isRunning ==> (res.1 == [] && res.0.isRunning
      && res.0.startListeners == r.startListeners + 1 && res.0.endListeners == r.endListeners + 1)
  {
    if r.isRunning then (r, Send(open, ErrorMessage(AlreadyRunningMessage)))
    else (Runner(true, r.startListeners + 1, r.endListeners + 1), [])
  }

  /** The settling of the workflow's promise: the result or the error is
      sent, and the `finally` block lowers the flag. */
  function Finish(r: Runner, open: bool, o: RunOutcome): (res: (Runner, seq<Message>))
    ensures !res.0.isRunning
    ensures res.0.startListeners == r.startListeners && res.0.endListeners == r.endListeners
    ensures res.1 == Send(open, FinalMessage(o))
  {
    (r.(isRunning := false), Send(open, FinalMessage(o)))
  }

  /** A whole call of `run`, with the events the graph emits while the
      workflow runs and what the workflow settles to. */
  function Run(v: Version, r: Runner, open: bool, events: seq<NodeEvent>, o: RunOutcome): (res: (Runner, seq<Message>))
    ensures !res.0.isRunning <==> !r.isRunning
    ensures r.isRunning ==> res == (r, Send(open, ErrorMessage(AlreadyRunningMessage)))
    ensures !r.isRunning ==> res.0 == Runner(false, r.startListeners + 1, r.endListeners + 1)
    ensures !r.isRunning && open ==> |res.1| > 0 && res.1[|res.1| - 1] == FinalMessage(o)
  {
    var (r1, m1) := Begin(r, open);
    if r.isRunning then (r1, m1)
    else
      var (r2, m2) := Finish(r1, open, o);
      (r2, m1 + RelayAll(v, r1, open, events) + m2)
  }

  /** A call while a run is in progress sends the one error and changes
      nothing: no listener is added and no workflow starts. */
  lemma ReentrantRunRejected(v: Version, r: Runner, open: bool, events: seq<NodeEvent>, o: RunOutcome)
    requires r.isRunning
    ensures Run(v, r, open, events, o).0 == r
    ensures Run(v, r, open, events, o).1 == (if open then [ErrorMessage("Workflow is already running")] else [])
  {
  }

  /** After a call that was not rejected, whatever the workflow did, the
      runner is idle again, has one more listener of each kind, and (on an
      open socket) the last message is the result or the error. */
  lemma RunSettles(v: Version, r: Runner, open: bool, events: seq<NodeEvent>, o: RunOutcome)
    requires !r.isRunning
    ensures !Run(v, r, open, events, o).0.isRunning
    ensures Run(v, r, open, events, o).0.startListeners == r.startListeners + 1
    ensures Run(v, r, open, events, o).0.endListeners == r.endListeners + 1
    ensures open ==> (|Run(v, r, open, events, o).1| > 0
      && Run(v, r, open, events, o).1[|Run(v, r, open, events, o).1| - 1] == FinalMessage(o))
  {
  }

  lemma {:induction false} RelayAllClosed(v: Version, r: Runner, es: seq<NodeEvent>)
    ensures RelayAll(v, r, false, es) == []
  {
    if |es| > 0 {
      RelayAllClosed(v, r, es[1..]);
    }
  }

  /** Nothing reaches a socket that is not open. */
  lemma ClosedSocketGetsNothing(v: Version, r: Runner, events: seq<NodeEvent>, o: RunOutcome)
    ensures Run(v, r, false, events, o).1 == []
  {
    RelayAllClosed(v, Begin(r, false).0, events);
  }

  /** With one listener of each kind, every event is relayed exactly once,
      in emission order. */
  lemma {:induction false} RelayAllOnce(v: Version, r: Runner, es: seq<NodeEvent>)
    requires r.startListeners == 1 && r.endListeners == 1
    ensures RelayAll(v, r, true, es) == seq(|es|, i requires 0 <= i < |es| => RelayMessage(v, es[i]))
  {
    if |es| > 0 {
      RelayAllOnce(v, r, es[1..]);
      assert Relay(v, r, true, es[0]) == [RelayMessage(v, es[0])];
    }
  }

  /** A fresh runner's first run: every event the graph emits (from this
      session or any other) is relayed once, in order, and the final
      message comes last. */
  lemma FirstRun(v: Version, events: seq<NodeEvent>, o: RunOutcome)
    ensures Run(v, NewRunner(), true, events, o).1
            == seq(|events|, i requires 0 <= i < |events| => RelayMessage(v, events[i])) + [FinalMessage(o)]
  {
    var r1 := Begin(NewRunner(), true).0;
    RelayAllOnce(v, r1, events);
    assert Begin(NewRunner(), true).1 == [];
  }

  /** The relay does not look at the session id: events of any session are
      relayed alike. */
  lemma RelayIgnoresSession(v: Version, r: Runner, open: bool, e: NodeEvent, sid: Option<string>)
    ensures Relay(v, r, open, e.(sessionId := sid)) == Relay(v, r, open, e)
  {
  }

  /** A runner used a second time relays every event twice: the first run's
      listeners are still registered. */
  lemma SecondRunRelaysTwice(v: Version, open: bool, ev1: seq<NodeEvent>, o1: RunOutcome, e: NodeEvent, o2: RunOutcome)
    ensures var r := Run(v, NewRunner(), open, ev1, o1).0;
      Run(v, r, true, [e], o2).1 == [RelayMessage(v, e), RelayMessage(v, e), FinalMessage(o2)]
  {
    var r := Run(v, NewRunner(), open, ev1, o1).0;
    var r1 := Begin(r, true).0;
    var m := RelayMessage(v, e);
    assert r1.startListeners == 2 && r1.endListeners == 2;
    assert Repeat(2, [m]) == [m] + ([m] + []);
    assert RelayAll(v, r1, true, [e]) == Relay(v, r1, true, e) + RelayAll(v, r1, true, []);
  }
}
