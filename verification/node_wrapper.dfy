/** The instrumentation `EventEmittingStateGraph.wrapNodeFunction` puts around
    every node function: one `node_start` event before the call, one
    `node_end` event after it, whatever the call does.

    A node function is opaque: what it returns or throws for a given call is
    an input (`StepOutcome`), and so are the two `Date.now()` readings. */
module NodeWrapper {
  import opened Wrappers
  import opened Values

  /** A node function as the graph stores it: a caller-supplied function, or
      the wrapper built around one for node `nodeId`. */
  datatype NodeFn = Opaque(name: string) | Wrapped(nodeId: string, inner: NodeFn)

  /** `wrapNodeFunction(nodeId, fn)`. */
  function Wrap(nodeId: string, fn: NodeFn): (w: NodeFn)
    ensures w.Wrapped? && w.nodeId == nodeId && w.inner == fn
  {
    Wrapped(nodeId, fn)
  }

  datatype Status = StatusSuccess | StatusError

  /** The `status` string a `node_end` event carries on the wire. */
  function StatusText(s: Status): string {
    match s
    case StatusSuccess => "success"
    case StatusError => "error"
  }

  datatype EndData = AfterState(afterState: State) | ErrorData(error: string)

  datatype NodeEvent =
    | NodeStart(nodeId: string, timestamp: int, sessionId: Option<string>, beforeState: State)
    | NodeEnd(nodeId: string, timestamp: int, duration: int, sessionId: Option<string>,
              status: Option<Status>, data: EndData)

  /** What the wrapped function did for one call: returned a partial state
      update, or threw. */
  datatype StepOutcome = Returned(update: State) | Raised(error: Thrown)

  datatype Configurable = Configurable(sessionId: Option<string>)
  datatype RunConfig = RunConfig(configurable: Option<Configurable>)

  /** `config?.configurable?.sessionId`. */
  function SessionOf(config: Option<RunConfig>): (sid: Option<string>)
    ensures sid.Some? <==> config.Some? && config.value.configurable.Some?
                           && config.value.configurable.value.sessionId.Some?
  {
    match config
    case None => None
    case Some(c) =>
      match c.configurable
      case None => None
      case Some(k) => k.sessionId
  }

  /** The events one call published, and what the wrapper handed back to its
      caller (a returned update, or the same thrown value rethrown). */
  datatype Invocation = Invocation(events: seq<NodeEvent>, outcome: StepOutcome)

  /** The shape the `NodeEndEvent` type declares: `status: 'success'` with an
      `afterState`, or `status: 'error'` with an `error`. */
  predicate WellTypedEnd(e: NodeEvent) {
    e.NodeEnd? &&
    match e.status
    case Some(StatusSuccess) => e.data.AfterState?
    case Some(StatusError) => e.data.ErrorData?
    case None => false
  }

  /** The `node_end` event of the failure path exactly as the source builds
      it: no `status` property at all. */
  function FailureEndAsWritten(nodeId: string, endTime: int, duration: int,
                               sid: Option<string>, error: Thrown): NodeEvent
  {
    NodeEnd(nodeId, endTime, duration, sid, None, ErrorData(Describe(error)))
  }

  /** The wrapper as written. */
  function InvokeAsWritten(nodeId: string, state: State, config: Option<RunConfig>,
                           startTime: int, endTime: int, inner: StepOutcome): (r: Invocation)
    ensures |r.events| == 2 && r.events[0].NodeStart? && r.events[1].NodeEnd?
    ensures r.events[0].nodeId == nodeId && r.events[1].nodeId == nodeId
    ensures r.events[0].sessionId == SessionOf(config) && r.events[1].sessionId == SessionOf(config)
    ensures r.events[0].beforeState == state
    ensures r.events[0].timestamp == startTime && r.events[1].timestamp == endTime
    ensures r.events[1].duration == endTime - startTime
    ensures r.outcome == inner
    ensures inner.Returned? ==> r.events[1].status == Some(StatusSuccess)
                                && r.events[1].data == AfterState(Merge(state, inner.update))
    ensures inner.Raised? ==> r.events[1].status.None?
                              && r.events[1].data == ErrorData(Describe(inner.error))
  {
    var sid := SessionOf(config);
    var start := NodeStart(nodeId, startTime, sid, state);
    match inner
    case Returned(update) =>
      Invocation([start, NodeEnd(nodeId, endTime, endTime - startTime, sid, Some(StatusSuccess),
                                 AfterState(Merge(state, update)))], inner)
    case Raised(e) =>
      Invocation([start, FailureEndAsWritten(nodeId, endTime, endTime - startTime, sid, e)], inner)
  }

  /** The failure event the source emits does not have the shape its own
      `NodeEndEvent` type declares. */
  lemma AsWrittenFailureIsIllTyped(nodeId: string, state: State, config: Option<RunConfig>,
                                   startTime: int, endTime: int, e: Thrown)
    ensures !WellTypedEnd(InvokeAsWritten(nodeId, state, config, startTime, endTime, Raised(e)).events[1])
  {
  }

  /** The wrapper with the failure event carrying `status: 'error'`, as the
      `NodeEndEvent` type declares: the corrected wrapper,
      `InvokeBy(Corrected, …)`. */
  function Invoke(nodeId: string, state: State, config: Option<RunConfig>,
                  startTime: int, endTime: int, inner: StepOutcome): (r: Invocation)
    ensures |r.events| == 2 && r.events[0].NodeStart? && WellTypedEnd(r.events[1])
    ensures r.events[0].nodeId == nodeId && r.events[1].nodeId == nodeId
    ensures r.events[0].sessionId == SessionOf(config) && r.events[1].sessionId == SessionOf(config)
    ensures r.events[0].beforeState == state
    ensures r.events[0].timestamp == startTime && r.events[1].timestamp == endTime
    ensures r.events[1].duration == endTime - startTime
    ensures r.outcome == inner
    ensures r.events[1].status == Some(StatusSuccess) <==> inner.Returned?
    ensures inner.Returned? ==> r.events[1].data == AfterState(Merge(state, inner.update))
    ensures inner.Raised? ==> r.events[1].data == ErrorData(Describe(inner.error))
  {
    var w := InvokeAsWritten(nodeId, state, config, startTime, endTime, inner);
    if inner.Raised? then Invocation([w.events[0], w.events[1].(status := Some(StatusError))], inner)
    else w
  }

  /** Which program a run-level member describes: the source as written,
      or with the corrections of the findings applied. */
  datatype Version = AsWritten | Corrected

  /** The wrapper of the chosen version. Both publish a start and an end for
      the node under the run's session, and the end says `success` exactly
      when the node returned. */
  function InvokeBy(v: Version, nodeId: string, state: State, config: Option<RunConfig>,
                    startTime: int, endTime: int, inner: StepOutcome): (r: Invocation)
    ensures |r.events| == 2 && r.events[0].NodeStart? && r.events[1].NodeEnd?
    ensures r.events[0].nodeId == nodeId && r.events[1].nodeId == nodeId
    ensures r.events[0].sessionId == SessionOf(config) && r.events[1].sessionId == SessionOf(config)
    ensures r.events[1].status == Some(StatusSuccess) <==> inner.Returned?
    ensures r.outcome == inner
    ensures v == AsWritten ==> r == InvokeAsWritten(nodeId, state, config, startTime, endTime, inner)
    ensures v == Corrected ==> r == Invoke(nodeId, state, config, startTime, endTime, inner)
  {
    match v
    case AsWritten => InvokeAsWritten(nodeId, state, config, startTime, endTime, inner)
    case Corrected => Invoke(nodeId, state, config, startTime, endTime, inner)
  }

  /** One node execution inside a run: which node, the state it was given,
      the run config, the clock readings and what the node function did. */
  datatype Call = Call(nodeId: string, state: State, startTime: int, endTime: int, inner: StepOutcome)

  /** All events a sequence of wrapped calls publishes under one run config. */
  function RunEvents(v: Version, config: Option<RunConfig>, calls: seq<Call>): (es: seq<NodeEvent>)
    ensures |es| == 2 * |calls|
  {
    if |calls| == 0 then []
    else
      var c := calls[0];
      InvokeBy(v, c.nodeId, c.state, config, c.startTime, c.endTime, c.inner).events
      + RunEvents(v, config, calls[1..])
  }

  /** Events come in pairs, as written and corrected alike: the i-th call
      publishes events 2i and 2i+1, a start and an end for the same node
      under the run's session id. */
  lemma {:induction false} RunEventsPaired(v: Version, config: Option<RunConfig>, calls: seq<Call>)
    ensures forall i :: 0 <= i < |calls| ==>
      var es := RunEvents(v, config, calls);
      && es[2 * i].NodeStart? && es[2 * i + 1].NodeEnd?
      && es[2 * i].nodeId == calls[i].nodeId && es[2 * i + 1].nodeId == calls[i].nodeId
      && es[2 * i].sessionId == SessionOf(config) && es[2 * i + 1].sessionId == SessionOf(config)
  {
    if |calls| > 0 {
      RunEventsPaired(v, config, calls[1..]);
      var es := RunEvents(v, config, calls);
      var head := InvokeBy(v, calls[0].nodeId, calls[0].state, config, calls[0].startTime,
                           calls[0].endTime, calls[0].inner).events;
      var tail := RunEvents(v, config, calls[1..]);
      assert es == head + tail;
      forall i | 0 <= i < |calls|
        ensures es[2 * i].NodeStart? && es[2 * i + 1].NodeEnd?
        ensures es[2 * i].nodeId == calls[i].nodeId && es[2 * i + 1].nodeId == calls[i].nodeId
        ensures es[2 * i].sessionId == SessionOf(config) && es[2 * i + 1].sessionId == SessionOf(config)
      {
        if i > 0 {
          assert es[2 * i] == tail[2 * (i - 1)];
          assert es[2 * i + 1] == tail[2 * (i - 1) + 1];
          assert calls[1..][i - 1] == calls[i];
        }
      }
    }
  }

  function CountSucceeded(calls: seq<Call>): nat {
    if |calls| == 0 then 0 else (if calls[0].inner.Returned? then 1 else 0) + CountSucceeded(calls[1..])
  }

  function CountSuccessEnds(es: seq<NodeEvent>): nat {
    if |es| == 0 then 0
    else (if es[0].NodeEnd? && es[0].status == Some(StatusSuccess) then 1 else 0) + CountSuccessEnds(es[1..])
  }

  lemma {:induction false} CountSuccessEndsAppend(a: seq<NodeEvent>, b: seq<NodeEvent>)
    ensures CountSuccessEnds(a + b) == CountSuccessEnds(a) + CountSuccessEnds(b)
  {
    if |a| > 0 {
      assert (a + b)[1..] == a[1..] + b;
      CountSuccessEndsAppend(a[1..], b);
    } else {
      assert a + b == b;
    }
  }

  /** The number of `node_end` events with status success equals the number
      of node calls that returned, as written and corrected alike. */
  lemma {:induction false} SuccessEndsCountReturns(v: Version, config: Option<RunConfig>, calls: seq<Call>)
    ensures CountSuccessEnds(RunEvents(v, config, calls)) == CountSucceeded(calls)
  {
    if |calls| > 0 {
      var c := calls[0];
      var head := InvokeBy(v, c.nodeId, c.state, config, c.startTime, c.endTime, c.inner).events;
      SuccessEndsCountReturns(v, config, calls[1..]);
      CountSuccessEndsAppend(head, RunEvents(v, config, calls[1..]));
      assert head[1..][1..] == [];
      assert CountSuccessEnds(head) == (if c.inner.Returned? then 1 else 0);
    }
  }
}
