/** The browser's `WebSocketManager` (websocket.js): a registry of handlers
    per event name, and the dispatch of server messages to them.

    Handlers are opaque callbacks; a handler is named by an identifier and
    what `emit` does is recorded as the sequence of calls it makes, in
    order. */
module SocketClient {
  import opened Wrappers
  import opened OrderedMap
  import opened Values
  import opened Protocol

  type HandlerId = nat

  /** One handler invocation: the handler and the argument it received
      (absent for `undefined`). */
  datatype Call = Call(handler: HandlerId, arg: Option<Json>)

  /** `this.handlers`: event name to handlers, in registration order. */
  datatype Manager = Manager(handlers: Assoc<string, seq<HandlerId>>)

  function NewManager(): Manager {
    Manager([])
  }

  /** The handlers registered for `e`, none when `e` was never registered. */
  function HandlersOf(m: Manager, e: string): seq<HandlerId> {
    Get(m.handlers, e).GetOr([])
  }

  /** `on(event, handler)`: the handler is appended to the event's list;
      every other event keeps its handlers. */
  function On(m: Manager, e: string, h: HandlerId): (r: Manager)
    ensures HandlersOf(r, e) == HandlersOf(m, e) + [h]
    ensures forall e2 :: e2 != e ==> HandlersOf(r, e2) == HandlersOf(m, e2)
  {
    var r := Manager(Put(m.handlers, e, HandlersOf(m, e) + [h]));
    assert forall e2 :: Get(r.handlers, e2) == if e2 == e then Some(HandlersOf(m, e) + [h]) else Get(m.handlers, e2) by {
      forall e2 ensures Get(r.handlers, e2) == if e2 == e then Some(HandlersOf(m, e) + [h]) else Get(m.handlers, e2) {
        PutGet(m.handlers, e, HandlersOf(m, e) + [h], e2);
      }
    }
    r
  }

  /** `emit(event, data)`: each handler of the event is called once, in
      registration order, with `data`. */
  function Emit(m: Manager, e: string, d: Option<Json>): (calls: seq<Call>)
    ensures |calls| == |HandlersOf(m, e)|
    ensures forall i :: 0 <= i < |calls| ==> calls[i] == Call(HandlersOf(m, e)[i], d)
  {
    var hs := HandlersOf(m, e);
    seq(|hs|, i requires 0 <= i < |hs| => Call(hs[i], d))
  }

  /** `{ message, type }`, the argument of a `status` event. */
  function StatusArg(message: string, kind: string): Option<Json> {
    Some(JObj(map["message" := JStr(message), "type" := JStr(kind)]))
  }

  /** The event names `handleMessage` passes through unchanged. */
  const PassThrough: set<string> := {"node_start", "node_end", "result", "error"}

  /** `handleMessage(message)`. */
  function HandleMessage(m: Manager, msg: Message): (calls: seq<Call>)
    ensures msg.kind == "graph" ==>
      calls == Emit(m, "graph", msg.data) + Emit(m, "status", StatusArg("Workflow started", "info"))
    ensures msg.kind in PassThrough ==> calls == Emit(m, msg.kind, msg.data)
    ensures msg.kind != "graph" && msg.kind !in PassThrough ==> calls == []
  {
    if msg.kind == "graph" then Emit(m, "graph", msg.data) + Emit(m, "status", StatusArg("Workflow started", "info"))
    else if msg.kind in PassThrough then Emit(m, msg.kind, msg.data)
    else []
  }

  /** What the socket's `onopen` does: a status event, then the request
      `{type: 'start_workflow', userDraft}` sent to the server. */
  function OnOpen(m: Manager, userDraft: string): (r: (seq<Call>, Json))
    ensures |r.0| == |HandlersOf(m, "status")|
    ensures forall i :: 0 <= i < |r.0| ==> r.0[i] == Call(HandlersOf(m, "status")[i], StatusArg("Starting workflow...", "info"))
    ensures r.1.JObj? && r.1.fields.Keys == {"type", "userDraft"}
    ensures r.1.fields["type"] == JStr("start_workflow") && r.1.fields["userDraft"] == JStr(userDraft)
  {
    (Emit(m, "status", StatusArg("Starting workflow...", "info")),
     JObj(map["type" := JStr("start_workflow"), "userDraft" := JStr(userDraft)]))
  }

  /** `onerror`: an error status, then the loading indicator off. */
  function OnError(m: Manager): (calls: seq<Call>)
    ensures |calls| == |HandlersOf(m, "status")| + |HandlersOf(m, "loading")|
    ensures forall i :: 0 <= i < |HandlersOf(m, "status")| ==>
      calls[i] == Call(HandlersOf(m, "status")[i], StatusArg("Connection error occurred", "error"))
    ensures forall i :: 0 <= i < |HandlersOf(m, "loading")| ==>
      calls[|HandlersOf(m, "status")| + i] == Call(HandlersOf(m, "loading")[i], Some(JBool(false)))
  {
    Emit(m, "status", StatusArg("Connection error occurred", "error")) + Emit(m, "loading", Some(JBool(false)))
  }

  /** `onclose`: the loading indicator off. */
  function OnClose(m: Manager): (calls: seq<Call>)
    ensures |calls| == |HandlersOf(m, "loading")|
    ensures forall i :: 0 <= i < |calls| ==> calls[i] == Call(HandlersOf(m, "loading")[i], Some(JBool(false)))
  {
    Emit(m, "loading", Some(JBool(false)))
  }

  // ---- properties across operations ----

  /** Registering a handler and then emitting its event calls it last,
      after the handlers registered before it. */
  lemma RegisteredHandlerCalledLast(m: Manager, e: string, h: HandlerId, d: Option<Json>)
    ensures Emit(On(m, e, h), e, d) == Emit(m, e, d) + [Call(h, d)]
  {
  }

  /** Handlers are called in registration order. */
  lemma HandlersInRegistrationOrder(e: string, hs: seq<HandlerId>, d: Option<Json>)
    ensures Emit(Register(NewManager(), e, hs), e, d) == seq(|hs|, i requires 0 <= i < |hs| => Call(hs[i], d))
  {
  }

  /** Registering several handlers for one event, in order: they follow the
      handlers the event already had. */
  function Register(m: Manager, e: string, hs: seq<HandlerId>): (r: Manager)
    ensures HandlersOf(r, e) == HandlersOf(m, e) + hs
    decreases |hs|
  {
    if |hs| == 0 then
      assert HandlersOf(m, e) + hs == HandlersOf(m, e);
      m
    else
      var init, last := hs[..|hs| - 1], hs[|hs| - 1];
      var before := Register(m, e, init);
      var r := On(before, e, last);
      AppendInit(HandlersOf(m, e), hs);
      r
  }

  lemma AppendInit<T>(a: seq<T>, hs: seq<T>)
    requires |hs| > 0
    ensures (a + hs[..|hs| - 1]) + [hs[|hs| - 1]] == a + hs
  {
    assert hs[..|hs| - 1] + [hs[|hs| - 1]] == hs;
  }

  /** A message of a type the dispatcher does not know (the server's
      `completion`, say) reaches no handler, even one registered under that
      very name. */
  lemma UnknownTypeReachesNoHandler(m: Manager, h: HandlerId, d: Option<Json>)
    ensures HandleMessage(On(m, "completion", h), Message("completion", d)) == []
  {
    var c := "completion";
    assert c[0] == 'c' && |c| == 10;
    assert c !in PassThrough && c != "graph";
  }

  /** A `graph` message reaches the `graph` handlers with the descriptor
      before any `status` handler hears that the workflow started. */
  lemma GraphBeforeStatus(h1: HandlerId, h2: HandlerId, d: Option<Json>)
    ensures HandleMessage(On(On(NewManager(), "status", h2), "graph", h1), Message("graph", d))
            == [Call(h1, d), Call(h2, StatusArg("Workflow started", "info"))]
  {
  }

  /** With one `status` handler and one `loading` handler: opening the
      socket reports the start and sends the draft; an error reports it and
      stops the loading indicator; a close only stops the indicator. */
  lemma ConnectionLifecycle(hs: HandlerId, hl: HandlerId, draft: string)
    ensures var m := On(On(NewManager(), "status", hs), "loading", hl);
      && OnOpen(m, draft) == ([Call(hs, StatusArg("Starting workflow...", "info"))],
                              JObj(map["type" := JStr("start_workflow"), "userDraft" := JStr(draft)]))
      && OnError(m) == [Call(hs, StatusArg("Connection error occurred", "error")), Call(hl, Some(JBool(false)))]
      && OnClose(m) == [Call(hl, Some(JBool(false)))]
  {
    var m := On(On(NewManager(), "status", hs), "loading", hl);
    assert HandlersOf(m, "status") == [hs];
    assert HandlersOf(m, "loading") == [hl];
    assert Emit(m, "status", StatusArg("Starting workflow...", "info")) == [Call(hs, StatusArg("Starting workflow...", "info"))];
    assert Emit(m, "status", StatusArg("Connection error occurred", "error")) == [Call(hs, StatusArg("Connection error occurred", "error"))];
    assert Emit(m, "loading", Some(JBool(false))) == [Call(hl, Some(JBool(false)))];
  }
}
