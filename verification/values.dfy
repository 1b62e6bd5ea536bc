/** Run-state values and thrown values. A workflow's run state is an object
    whose property values are JSON data; a node update is merged into it by
    spread (`{...state, ...update}`), which is map union with the update
    winning. */
module Values {

  datatype Json =
    | JNull
    | JBool(b: bool)
    | JNum(n: real)
    | JStr(s: string)
    | JArr(items: seq<Json>)
    | JObj(fields: map<string, Json>)

  type State = map<string, Json>

  /** What a `throw` can carry: an `Error` instance, or any other value shown
      through `String(value)`. */
  datatype Thrown = ErrorObject(message: string) | OtherValue(shown: string)

  /** `error instanceof Error ? error.message : String(error)`. */
  function Describe(e: Thrown): string {
    match e
    case ErrorObject(m) => m
    case OtherValue(s) => s
  }

  /** `{...state, ...update}`. */
  function Merge(state: State, update: State): (r: State)
    ensures r.Keys == state.Keys + update.Keys
    ensures forall k :: k in update ==> r[k] == update[k]
    ensures forall k :: k in state && k !in update ==> r[k] == state[k]
  {
    state + update
  }
}
