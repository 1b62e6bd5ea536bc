/** The server-to-browser messages: a JSON object with a `type` string and
    a `data` payload. `JSON.stringify` drops a property whose value is
    `undefined`, so a payload that was `undefined` arrives absent. */
module Protocol {
  import opened Wrappers
  import opened Values

  datatype Message = Message(kind: string, data: Option<Json>)

  /** `{type: 'error', data: {message: text}}`. */
  function ErrorMessage(text: string): (m: Message)
    ensures m.kind == "error" && m.data.Some? && m.data.value.JObj?
    ensures m.data.value.fields.Keys == {"message"} && m.data.value.fields["message"] == JStr(text)
  {
    Message("error", Some(JObj(map["message" := JStr(text)])))
  }
}
